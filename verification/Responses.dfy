/** What a fetch makes of whole responses as a server writes them, however the network cuts them into packets. */
module Responses {
  import opened Bytes
  import opened HttpClient
  import opened HeaderScan
  import opened HeaderFields
  import opened Numbers
  import opened ChunkCoding
  import opened ResponseBody
  import opened Fetch
  import ServerResponse

  /** A status line of a successful response. */
  predicate Success(start: seq<Byte>, codes: map<seq<Byte>, nat>) {
    |start| >= 12 && start[9..12] in codes && start[9] == '2' as int && Version(start) != 0
  }

  /** A response arrives in `net`, its whole header in the first packet. */
  ghost predicate Arrives(net: seq<seq<seq<Byte>>>, start: seq<Byte>, ls: seq<HeaderLine>, body: seq<Byte>,
      codes: map<seq<Byte>, nat>) {
    && NetOk(net) && net != [] && |WriteHeader(start, ls)| <= |net[0][0]|
    && NetBytes(net) == WriteHeader(start, ls) + body
    && ValidHeader(start, ls) && Success(start, codes)
  }

  lemma PrefixOfSum(h: seq<Byte>, body: seq<Byte>, a: seq<Byte>, b: seq<Byte>)
    requires h + body == a + b && |h| <= |a|
    ensures a == h + a[|h|..] && body == a[|h|..] + b
  {
    assert a == (h + body)[..|a|];
    assert a[..|h|] == (h + body)[..|h|] == h;
    assert body == (h + body)[|h|..];
  }

  lemma SameStart(start: seq<Byte>, ls: seq<HeaderLine>, more: seq<Byte>)
    requires |start| >= 12
    ensures var b := WriteHeader(start, ls) + more;
      |b| >= 12 && b[9..12] == start[9..12] && b[9] == start[9] && Version(b) == Version(start)
  {
    var b := WriteHeader(start, ls) + more;
    assert forall i :: 0 <= i < |start| ==> b[i] == start[i];
  }

  /** The first packet and the first chain of a response, behind the header. */
  lemma Layers(net: seq<seq<seq<Byte>>>, start: seq<Byte>, ls: seq<HeaderLine>, body: seq<Byte>,
      codes: map<seq<Byte>, nat>)
    requires Arrives(net, start, ls, body, codes)
    ensures var h := WriteHeader(start, ls);
      && |h| <= |net[0][0]| <= |Flatten(net[0])|
      && net[0][0] == h + net[0][0][|h|..]
      && Flatten(net[0]) == h + Flatten(net[0])[|h|..]
      && Flatten(net[0])[|h|..] + NetBytes(net[1..]) == body
  {
    var h := WriteHeader(start, ls);
    var first, chain := net[0][0], Flatten(net[0]);
    assert chain == first + Flatten(net[0][1..]);
    hide *;
    PrefixOfSum(h, body, chain, NetBytes(net[1..]));
    PrefixOfSum(h, chain[|h|..], first, Flatten(net[0][1..]));
  }

  /** What the client makes of an offset, a length, and `n` bytes so far. */
  function VerdictOf(offset: nat, length: nat, n: nat, chunked: bool): Verdict {
    if n > (offset + length) % UINT_RANGE && !chunked then Refused(NX_WEB_HTTP_BAD_PACKET_LENGTH)
    else Accepted(offset, length, chunked)
  }

  lemma JudgeIs(b: seq<Byte>, n: nat, codes: map<seq<Byte>, nat>, h: nat, fields: seq<Field>)
    requires |b| >= 12 && b[9..12] in codes && b[9] == '2' as int && Version(b) != 0
    requires ParseLines(b) == Complete(h, fields) && h <= n
    ensures Judge(b, n, codes) == VerdictOf(h, ContentLength(b), n, Chunked(fields))
  {
    hide ContentLength, ParseLines, Version, Chunked;
  }

  lemma SuccessIs(start: seq<Byte>, codes: map<seq<Byte>, nat>)
    requires Success(start, codes)
    ensures |start| >= 12 && start[9..12] in codes && start[9] == '2' as int && Version(start) != 0
  {
  }

  /** A packet that starts with a whole header, as the client judges it. */
  lemma {:induction false} PacketJudged(b: seq<Byte>, n: nat, start: seq<Byte>, ls: seq<HeaderLine>, more: seq<Byte>,
      codes: map<seq<Byte>, nat>)
    requires ValidHeader(start, ls) && Success(start, codes) && b == WriteHeader(start, ls) + more
    requires |WriteHeader(start, ls)| <= n
    ensures Judge(b, n, codes) == VerdictOf(|WriteHeader(start, ls)|, ContentLength(b), n, Chunked(FieldsRead(ls)))
  {
    hide *;
    SuccessIs(start, codes);
    SameStart(start, ls, more);
    HeaderParses(start, ls, more);
    JudgeIs(b, n, codes, |WriteHeader(start, ls)|, FieldsRead(ls));
  }

  /** How the client finds such a response. */
  function OpeningOf(net: seq<seq<seq<Byte>>>): Opening
    requires net != [] && net[0] != []
  {
    Opening(net[0][0], Flatten(net[0]), net[1..])
  }

  lemma {:induction false} ArrivesParts(net: seq<seq<seq<Byte>>>, start: seq<Byte>, ls: seq<HeaderLine>,
      body: seq<Byte>, codes: map<seq<Byte>, nat>)
    requires Arrives(net, start, ls, body, codes)
    ensures NetOk(net) && net != [] && net[0] != [] && NetBytes(net) == WriteHeader(start, ls) + body
    ensures ValidHeader(start, ls) && Success(start, codes)
  {
  }

  lemma {:induction false} HeaderScans(start: seq<Byte>, ls: seq<HeaderLine>, rest: seq<Byte>)
    requires ValidHeader(start, ls)
    ensures ScanFrom(WriteHeader(start, ls) + rest, 0) == Found(|WriteHeader(start, ls)|)
  {
    ScannersAgree(start, ls, rest);
    HeaderParses(start, ls, rest);
    hide *;
  }

  /** The header of such a response is found in its first chain. */
  lemma {:induction false} HeaderFound(net: seq<seq<seq<Byte>>>, start: seq<Byte>, ls: seq<HeaderLine>, body: seq<Byte>,
      codes: map<seq<Byte>, nat>)
    requires Arrives(net, start, ls, body, codes)
    ensures net != [] && ScanFrom(NetBytes(net), 0) == Found(|WriteHeader(start, ls)|) == ScanFrom(Flatten(net[0]), 0)
  {
    ArrivesParts(net, start, ls, body, codes);
    Layers(net, start, ls, body, codes);
    hide *;
    HeaderScans(start, ls, body);
    HeaderScans(start, ls, Flatten(net[0])[|WriteHeader(start, ls)|..]);
  }

  lemma {:induction false} FoundIs(net: seq<seq<seq<Byte>>>, o: Opening)
    requires NetOk(net) && net != [] && net[0] != []
    requires ScanFrom(NetBytes(net), 0) == ScanFrom(Flatten(net[0]), 0) && ScanFrom(Flatten(net[0]), 0).Found?
    ensures Fetch.Found(Header(net), o) <==> o == OpeningOf(net)
  {
    ServerResponse.UpToFirst(net);
    hide ScanFrom;
    assert Flatten(net[0]) == net[0][0] + Flatten(net[0][1..]);
    assert Flatten(net[0]) + NetBytes(net[1..]) == NetBytes(net);
    hide Flatten, NetBytes;
  }

  /** The client finds the header of such a response in its first packet, and takes what it says. */
  lemma {:induction false} HeaderAccepted(net: seq<seq<seq<Byte>>>, start: seq<Byte>, ls: seq<HeaderLine>,
      body: seq<Byte>, codes: map<seq<Byte>, nat>, o: Opening)
    requires Arrives(net, start, ls, body, codes)
    ensures net != [] && net[0] != [] && ScanFrom(NetBytes(net), 0).Found?
    ensures Fetch.Found(Header(net), o) <==> o == OpeningOf(net)
    ensures Judge(net[0][0], |Flatten(net[0])|, codes)
         == VerdictOf(|WriteHeader(start, ls)|, ContentLength(net[0][0]), |Flatten(net[0])|, Chunked(FieldsRead(ls)))
  {
    HeaderFound(net, start, ls, body, codes);
    ArrivesParts(net, start, ls, body, codes);
    Layers(net, start, ls, body, codes);
    hide *;
    FoundIs(net, o);
    var b := net[0][0];
    PacketJudged(b, |Flatten(net[0])|, start, ls, b[|WriteHeader(start, ls)|..], codes);
  }

  /**
   Only the first packet is looked at: a response whose header goes on in the second packet of the first chain is never
   fetched successfully.
   */
  lemma {:induction false} HeaderCutRefused(net: seq<seq<seq<Byte>>>, start: seq<Byte>, ls: seq<HeaderLine>,
      body: seq<Byte>, codes: map<seq<Byte>, nat>, head: bool)
    requires NetOk(net) && net != [] && NetBytes(net) == WriteHeader(start, ls) + body && ValidHeader(start, ls)
    requires |net[0][0]| < |WriteHeader(start, ls)| <= |Flatten(net[0])|
    ensures Fetch.Found(Header(net), OpeningOf(net))
    ensures FetchAll(Header(net), codes, head, OpeningOf(net)).status != NX_SUCCESS
  {
    var h, first, chain := WriteHeader(start, ls), net[0][0], Flatten(net[0]);
    assert chain == first + Flatten(net[0][1..]) && chain + NetBytes(net[1..]) == h + body;
    hide *;
    PrefixOfSum(h, body, chain, NetBytes(net[1..]));
    PrefixOfSum(first, Flatten(net[0][1..]), h, chain[|h|..]);
    HeaderScans(start, ls, body);
    HeaderScans(start, ls, chain[|h|..]);
    FoundIs(net, OpeningOf(net));
    CutHeader(start, ls, first);
    CutJudged(first, |chain|, codes);
    RefusedFetch(net, codes, head);
  }

  /**
   However a header is found, also one that ends beyond the first chain: it is judged by what it says if and only if the
   first packet got all of it, and refused otherwise.
   */
  lemma {:induction false} JudgedByHeader(net: seq<seq<seq<Byte>>>, start: seq<Byte>, ls: seq<HeaderLine>,
      body: seq<Byte>, codes: map<seq<Byte>, nat>, o: Opening)
    requires NetBytes(net) == WriteHeader(start, ls) + body && ValidHeader(start, ls) && Success(start, codes)
    requires Opens(net, o)
    ensures var h, j := |WriteHeader(start, ls)|, Judge(o.first, |o.all|, codes);
      var verdict := VerdictOf(h, ContentLength(o.first), |o.all|, Chunked(FieldsRead(ls)));
      && (h <= |o.first| ==> j == verdict)
      && (j.Accepted? <==> h <= |o.first| && verdict.Accepted?)
  {
    var h := WriteHeader(start, ls);
    OpensParts(net, o);
    hide *;
    HeaderScans(start, ls, body);
    if |h| <= |o.first| {
      PrefixOfSum(h, body, o.first, o.all[|o.first|..] + NetBytes(o.rest));
      PacketJudged(o.first, |o.all|, start, ls, o.first[|h|..], codes);
    } else {
      PrefixOfSum(o.first, o.all[|o.first|..] + NetBytes(o.rest), h, body);
      CutHeader(start, ls, o.first);
      CutJudged(o.first, |o.all|, codes);
    }
  }

  lemma {:induction false} OpensParts(net: seq<seq<seq<Byte>>>, o: Opening)
    requires Opens(net, o)
    ensures o.first <= o.all && o.first + (o.all[|o.first|..] + NetBytes(o.rest)) == NetBytes(net)
  {
    assert o.all == o.first + o.all[|o.first|..];
    hide NetBytes, ScanFrom, NetOk, Flatten;
  }

  lemma CutJudged(b: seq<Byte>, n: nat, codes: map<seq<Byte>, nat>)
    requires !ParseLines(b).Complete?
    ensures Judge(b, n, codes).Refused? && Judge(b, n, codes).status != NX_SUCCESS
  {
    hide ContentLength, ParseLines, Version, Chunked;
  }

  lemma {:induction false} RefusedFetch(net: seq<seq<seq<Byte>>>, codes: map<seq<Byte>, nat>, head: bool)
    requires net != [] && net[0] != [] && ScanFrom(NetBytes(net), 0).Found?
    requires Judge(net[0][0], |Flatten(net[0])|, codes).Refused?
    requires Judge(net[0][0], |Flatten(net[0])|, codes).status != NX_SUCCESS
    ensures FetchAll(Header(net), codes, head, OpeningOf(net)).status != NX_SUCCESS
  {
    hide Judge, FetchPart, ScanFrom, NetBytes, Flatten;
  }

  // ---------------------------------------------------------------- the status code

  /** What a status code comes to, if its digits are not those of a success. */
  function StatusOf(code: seq<Byte>, codes: map<seq<Byte>, nat>): Status {
    if code in codes then StatusCode(codes[code]) else NX_WEB_HTTP_REQUEST_UNSUCCESSFUL_CODE
  }

  /** The status line reaches as far as the status code in the first packet, wherever the header ends. */
  lemma StatusInFirst(net: seq<seq<seq<Byte>>>, start: seq<Byte>, ls: seq<HeaderLine>, body: seq<Byte>, o: Opening)
    requires NetBytes(net) == WriteHeader(start, ls) + body && |start| >= 12
    requires Opens(net, o) && |o.first| >= 12
    ensures o.first[..12] == start[..12]
  {
    OpensParts(net, o);
    var b := NetBytes(net);
    assert start == WriteHeader(start, ls)[..|start|];
    assert b[..12] == start[..12] && b[..12] == o.first[..12];
  }

  lemma JudgedByStatus(b: seq<Byte>, n: nat, codes: map<seq<Byte>, nat>)
    requires |b| >= 12
    ensures b[9..12] !in codes || b[9] != 50 ==> Judge(b, n, codes) == Refused(StatusOf(b[9..12], codes))
    ensures Judge(b, n, codes).Accepted? ==> b[9] == 50 && b[9..12] in codes
  {
    hide ContentLength, ParseLines, Version, Chunked;
  }

  lemma SameStatus(a: seq<Byte>, b: seq<Byte>)
    requires |a| >= 12 && |b| >= 12 && a[..12] == b[..12]
    ensures a[9..12] == b[9..12] && a[9] == b[9]
  {
    assert a[9..12] == a[..12][9..] && b[9..12] == b[..12][9..];
    assert a[9] == a[..12][9] && b[9] == b[..12][9];
  }

  /**
   Only a status code that is known and starts with the digit 2 lets a response be fetched: any other known one gives
   its own status, an unknown one that of an unsuccessful request, with nothing fetched, already from the first call,
   and no field is read. It is enough that the first packet has the status code.
   */
  lemma {:induction false} StatusDecides(net: seq<seq<seq<Byte>>>, start: seq<Byte>, ls: seq<HeaderLine>,
      body: seq<Byte>, codes: map<seq<Byte>, nat>, head: bool, o: Opening)
    requires NetBytes(net) == WriteHeader(start, ls) + body && ValidHeader(start, ls) && |start| >= 12
    requires Opens(net, o) && |o.first| >= 12
    ensures var known, f := start[9..12] in codes, FetchAll(Header(net), codes, head, o);
      && (f.status == NX_SUCCESS ==> known && start[9] == 50)
      && (!known ==> f == Fetched(NX_WEB_HTTP_REQUEST_UNSUCCESSFUL_CODE, []))
      && (known && start[9] != 50 ==> f == Fetched(StatusCode(codes[start[9..12]]), []))
      && (!known || start[9] != 50 ==> !Overruns(net, codes, o))
    ensures forall status, bytes, v :: Gets(Header(net), codes, head, o, status, bytes, v) ==>
      var known := start[9..12] in codes;
      && (status == NX_SUCCESS || status == NX_WEB_HTTP_GET_DONE ==> known && start[9] == 50)
      && (!known ==> status == NX_WEB_HTTP_REQUEST_UNSUCCESSFUL_CODE)
      && (known && start[9] != 50 ==> status == StatusCode(codes[start[9..12]]))
  {
    HeaderScans(start, ls, body);
    StatusInFirst(net, start, ls, body, o);
    hide *;
    SameStatus(o.first, start);
    JudgedByStatus(o.first, |o.all|, codes);
    Refusals(o.first, |o.all|, codes);
    StatusFetched(net, codes, head, o);
    StatusIs(start[9..12], codes);
  }

  lemma StatusIs(code: seq<Byte>, codes: map<seq<Byte>, nat>)
    ensures code in codes ==> StatusOf(code, codes) == StatusCode(codes[code])
    ensures code !in codes ==> StatusOf(code, codes) == NX_WEB_HTTP_REQUEST_UNSUCCESSFUL_CODE
  {
  }

  lemma {:induction false} StatusFetched(net: seq<seq<seq<Byte>>>, codes: map<seq<Byte>, nat>, head: bool, o: Opening)
    requires ScanFrom(NetBytes(net), 0).Found? && |o.first| >= 12
    ensures var j, f := Judge(o.first, |o.all|, codes), FetchAll(Header(net), codes, head, o);
      j.Refused? ==> f == Fetched(j.status, [])
    ensures o.first[9..12] !in codes || o.first[9] != 50 ==> !Overruns(net, codes, o)
    ensures forall status, bytes, v :: Gets(Header(net), codes, head, o, status, bytes, v) ==>
      var j := Judge(o.first, |o.all|, codes); j.Refused? ==> status == j.status
  {
    hide Judge, NetBytes, ScanFrom, Opens, FetchPart, FetchChunks, ParseLines, Version;
  }

  /** The field reader stays inside the first packet of such a response. */
  lemma StaysInside(net: seq<seq<seq<Byte>>>, start: seq<Byte>, ls: seq<HeaderLine>, body: seq<Byte>,
      codes: map<seq<Byte>, nat>, o: Opening)
    requires Arrives(net, start, ls, body, codes) && Fetch.Found(Header(net), o)
    ensures !Overruns(net, codes, o)
  {
    ArrivesParts(net, start, ls, body, codes);
    HeaderAccepted(net, start, ls, body, codes, o);
    Layers(net, start, ls, body, codes);
    var b := net[0][0];
    hide *;
    HeaderParses(start, ls, b[|WriteHeader(start, ls)|..]);
    CompleteNotOverrun(net, codes, o);
  }

  lemma CompleteNotOverrun(net: seq<seq<seq<Byte>>>, codes: map<seq<Byte>, nat>, o: Opening)
    requires ParseLines(o.first).Complete?
    ensures !Overruns(net, codes, o)
  {
    hide ParseLines, NetBytes, ScanFrom, Opens;
  }

  /** What is noted of a response whose whole header is in its first packet. */
  lemma {:induction false} ResponseNoted(net: seq<seq<seq<Byte>>>, start: seq<Byte>, ls: seq<HeaderLine>,
      body: seq<Byte>, codes: map<seq<Byte>, nat>, o: Opening, was: Notes)
    requires Arrives(net, start, ls, body, codes) && Fetch.Found(Header(net), o)
    ensures Noted(was, Header(net), codes, o) ==
      was.(keep := HeaderKeeps(start, ls), reported := was.reported + (if was.listening then FieldsRead(ls) else []))
  {
    hide *;
    ArrivesParts(net, start, ls, body, codes);
    HeaderAccepted(net, start, ls, body, codes, o);
    Layers(net, start, ls, body, codes);
    var b := net[0][0];
    SuccessIs(start, codes);
    SameStart(start, ls, b[|WriteHeader(start, ls)|..]);
    HeaderNoted(start, ls, b[|WriteHeader(start, ls)|..]);
    NotedIs(was, net, codes, o, b, HeaderKeeps(start, ls), FieldsRead(ls));
  }

  lemma NotedIs(was: Notes, net: seq<seq<seq<Byte>>>, codes: map<seq<Byte>, nat>, o: Opening, b: seq<Byte>, keep: bool,
      fields: seq<Field>)
    requires net != [] && net[0] != [] && b == net[0][0] && o == OpeningOf(net) && ScanFrom(NetBytes(net), 0).Found?
    requires |b| >= 12 && b[9..12] in codes && b[9] == '2' as int && (Keeps(b) <==> keep) && Reports(b) == fields
    ensures Noted(was, Header(net), codes, o) ==
      was.(keep := keep, reported := was.reported + (if was.listening then fields else []))
  {
    assert was.reported + [] == was.reported;
    hide Keeps, Reports, ScanFrom, NetBytes;
  }

  // ---------------------------------------------------------------- chunked responses

  /**
   What is fetched of a chunked response is what the decoder makes of its body, with as many bytes taken for missing
   from an open chunk as the first packet seems to announce.
   */
  lemma {:induction false} ChunkedFetched(net: seq<seq<seq<Byte>>>, start: seq<Byte>, ls: seq<HeaderLine>,
      body: seq<Byte>, codes: map<seq<Byte>, nat>, head: bool, o: Opening)
    requires Arrives(net, start, ls, body, codes) && Fetch.Found(Header(net), o) && Chunked(FieldsRead(ls))
    ensures FetchAll(Header(net), codes, head, o) == FetchChunks(if head then 0 else ContentLength(net[0][0]), body)
  {
    HeaderAccepted(net, start, ls, body, codes, o);
    Layers(net, start, ls, body, codes);
    hide WriteHeader, Judge, ContentLength, Chunked, FieldsRead, NetBytes, Flatten, ScanFrom, FetchChunks;
  }

  /**
   A chunked response is fetched successfully with some content exactly when its body is one of the grammar with that
   data; if its first packet seems to announce a length, when it is so many bytes, CRLF, and a body of the grammar.
   */
  lemma {:induction false} ChunkedFetchLanguage(net: seq<seq<seq<Byte>>>, start: seq<Byte>, ls: seq<HeaderLine>,
      body: seq<Byte>, codes: map<seq<Byte>, nat>, head: bool, o: Opening, content: seq<Byte>)
    requires Arrives(net, start, ls, body, codes) && Fetch.Found(Header(net), o) && Chunked(FieldsRead(ls))
    ensures var owed := if head then 0 else ContentLength(net[0][0]);
      FetchAll(Header(net), codes, head, o) == Fetched(NX_SUCCESS, content)
      <==> exists cs, last, rest :: EncodesFrom(owed, body, content, rest, cs, last)
  {
    ChunkedFetched(net, start, ls, body, codes, head, o);
    var owed := if head then 0 else ContentLength(net[0][0]);
    var d := Decode(owed, body);
    hide Arrives, Chunked, FieldsRead, ContentLength, Decode, EncodesFrom, FetchAll, Fetch.Found;
    if d.Done? && d.content == content {
      OpenDecoderLanguage(owed, body, content, d.rest);
      var cs, last :| EncodesFrom(owed, body, content, d.rest, cs, last);
    }
    if exists cs, last, rest :: EncodesFrom(owed, body, content, rest, cs, last) {
      var cs, last, rest :| EncodesFrom(owed, body, content, rest, cs, last);
      OpenDecoderLanguage(owed, body, content, rest);
    }
  }

  lemma HeaderEnds(start: seq<Byte>, ls: seq<HeaderLine>)
    ensures var h := WriteHeader(start, ls);
      h != [] && h[|h| - 1] == LF
  {
  }

  /**
   The length that the first packet seems to announce: that of the header if it has a token, and otherwise that of the
   body, or none if the packet ends before the body's first number does.
   */
  lemma FirstPacketLength(h: seq<Byte>, body: seq<Byte>, m: nat)
    requires h != [] && h[|h| - 1] == LF && m <= |body|
    ensures var length := ContentLength(h + body[..m]);
      if HasToken(h) then length == ContentLength(h)
      else length == ContentLength(body[..m]) && (length == 0 || length == ContentLength(body))
  {
    hide HasToken, ContentLength;
    if HasToken(h) {
      LinesLength(h, body[..m]);
    } else {
      LengthBehind(h, body[..m]);
      TokenFound(body[..m]);
      if HasToken(body[..m]) {
        PrefixLength(body[..m], body[m..]);
        assert body[..m] + body[m..] == body;
      }
    }
  }

  /** What a fetch of a response comes to. */
  function FetchOf(net: seq<seq<seq<Byte>>>, codes: map<seq<Byte>, nat>): Fetched
    requires net != [] && net[0] != []
  {
    FetchAll(Header(net), codes, false, OpeningOf(net))
  }

  /** How the first packet of a chunked response decides what is fetched. */
  lemma {:induction false} FetchedOf(net: seq<seq<seq<Byte>>>, start: seq<Byte>, ls: seq<HeaderLine>, body: seq<Byte>,
      codes: map<seq<Byte>, nat>)
    requires Arrives(net, start, ls, body, codes) && Chunked(FieldsRead(ls))
    ensures var h, m := WriteHeader(start, ls), |net[0][0]| - |WriteHeader(start, ls)|;
      && 0 <= m <= |body| && net[0][0] == h + body[..m]
      && FetchOf(net, codes) == FetchChunks(ContentLength(h + body[..m]), body)
  {
    hide *;
    ArrivesParts(net, start, ls, body, codes);
    Layers(net, start, ls, body, codes);
    HeaderAccepted(net, start, ls, body, codes, OpeningOf(net));
    ChunkedFetched(net, start, ls, body, codes, false, OpeningOf(net));
    FetchOfIs(net, codes);
    var h := WriteHeader(start, ls);
    var first := net[0][0][|h|..];
    FirstInside(net, h, body);
    assert body[..|first|] == first;
  }

  lemma {:induction false} FirstInside(net: seq<seq<seq<Byte>>>, h: seq<Byte>, body: seq<Byte>)
    requires net != [] && net[0] != [] && NetBytes(net) == h + body && |h| <= |net[0][0]|
    ensures net[0][0][|h|..] <= body
  {
    var first, more := net[0][0], Flatten(net[0][1..]) + NetBytes(net[1..]);
    assert NetBytes(net) == first + more;
    hide *;
    PrefixOfSum(h, body, first, more);
  }

  /** All deliveries of a response to the client come to the same fetch. */
  ghost predicate SplitsAgree(start: seq<Byte>, ls: seq<HeaderLine>, body: seq<Byte>, codes: map<seq<Byte>, nat>) {
    forall net, net' :: Arrives(net, start, ls, body, codes) && Arrives(net', start, ls, body, codes) ==>
      FetchOf(net, codes) == FetchOf(net', codes)
  }

  /** The response in two chains, cut behind the header, and in a single packet. */
  lemma TwoDeliveries(start: seq<Byte>, ls: seq<HeaderLine>, body: seq<Byte>, codes: map<seq<Byte>, nat>)
    requires ValidHeader(start, ls) && Success(start, codes) && body != []
    ensures var h := WriteHeader(start, ls);
      Arrives([[h], [body]], start, ls, body, codes) && Arrives([[h + body]], start, ls, body, codes)
  {
    var h := WriteHeader(start, ls);
    hide ValidHeader, Success, WriteHeader;
    OnePacket(h);
    OnePacket(body);
    OnePacket(h + body);
    var two, one := [[h], [body]], [[h + body]];
    assert two[1..] == [[body]] && [[body]][1..] == [] && one[1..] == [];
    assert NetBytes([[body]]) == body + [] == body;
    assert NetBytes(two) == h + body && NetBytes(one) == h + body + [] == h + body;
  }

  lemma OnePacket(b: seq<Byte>)
    ensures Flatten([b]) == b
  {
    assert [b][1..] == [] && b + [] == b;
  }

  /**
   How a chunked response is cut into packets makes no difference if and only if its header names a length, or the
   length that its body seems to announce makes no difference to the decoder. That is so if the bytes have no
   Content-Length token.
   */
  lemma {:induction false} SplitIndependence(start: seq<Byte>, ls: seq<HeaderLine>, body: seq<Byte>,
      codes: map<seq<Byte>, nat>)
    requires ValidHeader(start, ls) && Success(start, codes) && Chunked(FieldsRead(ls))
    ensures SplitsAgree(start, ls, body, codes)
       <==> HasToken(WriteHeader(start, ls)) || FetchChunks(ContentLength(body), body) == FetchChunks(0, body)
    ensures !HasToken(body) ==> SplitsAgree(start, ls, body, codes)
  {
    var h := WriteHeader(start, ls);
    HeaderEnds(start, ls);
    TokenFound(body);
    hide Arrives, Success, ValidHeader, WriteHeader, Chunked, FieldsRead, ContentLength, HasToken, FetchChunks, FetchOf;
    if HasToken(h) || FetchChunks(ContentLength(body), body) == FetchChunks(0, body) {
      forall net, net' | Arrives(net, start, ls, body, codes) && Arrives(net', start, ls, body, codes)
        ensures net != [] && net[0] != [] && net' != [] && net'[0] != [] && FetchOf(net, codes) == FetchOf(net', codes)
      {
        SameFetch(net, start, ls, body, codes);
        SameFetch(net', start, ls, body, codes);
      }
    } else {
      TwoFetches(start, ls, body, codes);
    }
  }

  lemma {:induction false} SameFetch(net: seq<seq<seq<Byte>>>, start: seq<Byte>, ls: seq<HeaderLine>, body: seq<Byte>,
      codes: map<seq<Byte>, nat>)
    requires Arrives(net, start, ls, body, codes) && Chunked(FieldsRead(ls))
    ensures net != [] && net[0] != []
    ensures var h := WriteHeader(start, ls);
      && (HasToken(h) ==> FetchOf(net, codes) == FetchChunks(ContentLength(h), body))
      && (!HasToken(h) && FetchChunks(ContentLength(body), body) == FetchChunks(0, body) ==>
          FetchOf(net, codes) == FetchChunks(0, body))
  {
    hide *;
    ArrivesParts(net, start, ls, body, codes);
    FetchedOf(net, start, ls, body, codes);
    HeaderEnds(start, ls);
    FirstPacketLength(WriteHeader(start, ls), body, |net[0][0]| - |WriteHeader(start, ls)|);
  }

  /** The two deliveries, without a token in the header. */
  lemma {:induction false} TwoFetches(start: seq<Byte>, ls: seq<HeaderLine>, body: seq<Byte>, codes: map<seq<Byte>,
      nat>)
    requires ValidHeader(start, ls) && Success(start, codes) && Chunked(FieldsRead(ls))
    requires !HasToken(WriteHeader(start, ls)) && ContentLength(body) > 0
    ensures var h := WriteHeader(start, ls);
      && Arrives([[h], [body]], start, ls, body, codes) && Arrives([[h + body]], start, ls, body, codes)
      && NetBytes([[h], [body]]) == NetBytes([[h + body]])
      && FetchOf([[h], [body]], codes) == FetchChunks(0, body)
      && FetchOf([[h + body]], codes) == FetchChunks(ContentLength(body), body)
  {
    var h := WriteHeader(start, ls);
    assert body != [];
    hide *;
    TwoDeliveries(start, ls, body, codes);
    ArrivesParts([[h], [body]], start, ls, body, codes);
    ArrivesParts([[h + body]], start, ls, body, codes);
    FetchedOf([[h], [body]], start, ls, body, codes);
    FetchedOf([[h + body]], start, ls, body, codes);
    HeaderEnds(start, ls);
    FirstPacketLength(h, body, 0);
    FirstPacketLength(h, body, |body|);
    TokenFound([]);
    NoTokenInNothing();
    assert body[..0] == [] && body[..|body|] == body;
  }

  lemma NoTokenInNothing()
    ensures ContentLength([]) == 0
  {
  }

  /** A body of one chunk whose data looks like a header field. */
  const LOOKALIKE: seq<Byte> := Ascii("Content-Length:1 ")

  function LookalikeBody(): seq<Byte> {
    Ascii("11") + CRLF + LOOKALIKE + CRLF + (Ascii("0") + CRLF + CRLF)
  }

  lemma LookalikeDecodes()
    ensures FetchChunks(0, LookalikeBody()) == Fetched(NX_SUCCESS, LOOKALIKE)
    ensures FetchChunks(1, LookalikeBody()) == Fetched(NX_NOT_FOUND, [])
  {
    var c, last := Chunk(Ascii("11"), [], LOOKALIKE), Chunk(Ascii("0"), [], []);
    assert |LOOKALIKE| == 17;
    assert Ascii("11") == [49, 49] && [49, 49][..1] == [49] && [49][..0] == [] && HexValue([49, 49]) == 17;
    assert Ascii("0") == [48] && [48][..0] == [] && HexValue([48]) == 0;
    assert AcceptedChunk(c) && AcceptedChunk(last);
    assert LookalikeBody()[0] == 49 && LookalikeBody()[1] == 49;
    LookalikeIs(c, last);
    hide HexValue, Write, AcceptedChunk, Ascii, LookalikeBody;
    assert Body([c], last);
    BodyDecodes([c], last, []);
  }

  lemma LookalikeIs(c: Chunk, last: Chunk)
    requires c == Chunk(Ascii("11"), [], LOOKALIKE) && last == Chunk(Ascii("0"), [], [])
    ensures LookalikeBody() == WriteAll([c]) + Write(last) + []
    ensures Content([c]) == LOOKALIKE
  {
    assert [c][1..] == [];
    assert Write(last) == Ascii("0") + CRLF + CRLF;
    assert Write(c) == Ascii("11") + CRLF + LOOKALIKE + CRLF;
  }

  lemma LookalikeParts()
    ensures var b := LookalikeBody();
      && |b| > 21 && b[0] == 49 && b[1] == 49 && b[2] == 13 && b[3] == 10
      && b[4..19] == Ascii(CONTENT_LENGTH) && b[19] == 49 && b[20] == SPACE
  {
    var b := LookalikeBody();
    assert b[4..19] == LOOKALIKE[..15] == Ascii(CONTENT_LENGTH);
  }

  /** A token starts with the letter C. */
  lemma TokenStarts(b: seq<Byte>, k: nat)
    requires k < |b| && Upper(b[k]) != 'C' as int
    ensures !TokenAt(b, k)
  {
    TokenLetters();
    assert k + 14 < |b| ==> UpperAll(b[k..k + 15])[0] == Upper(b[k]);
  }

  lemma LookalikeLength()
    ensures ContentLength(LookalikeBody()) == 1
  {
    var b := LookalikeBody();
    LookalikeParts();
    hide LookalikeBody, ContentLength, Decimal;
    forall k: nat | k < 4
      ensures !TokenAt(b, k)
    {
      TokenStarts(b, k);
    }
    assert TokenAt(b, 4);
    hide TokenAt;
    FirstTokenIs(b, 4);
    DigitsOfOne();
    assert b[19..] == Spaces(0) + [49] + b[20..];
    ContentLengthReads(b, 4, 0, 1, b[20..]);
  }

  lemma DigitsOfOne()
    ensures Decimal(1) == [49]
  {
  }

  /**
   The same bytes, a chunked response without a Content-Length field, in two deliveries: the header in a packet of its
   own, and the data of the chunk is fetched; all in one packet, and the fetch fails.
   */
  lemma {:induction false} SplitMatters(start: seq<Byte>, ls: seq<HeaderLine>, codes: map<seq<Byte>, nat>)
    requires ValidHeader(start, ls) && Success(start, codes) && Chunked(FieldsRead(ls))
    requires !HasToken(WriteHeader(start, ls))
    ensures var h, body := WriteHeader(start, ls), LookalikeBody();
      && Arrives([[h], [body]], start, ls, body, codes) && Arrives([[h + body]], start, ls, body, codes)
      && NetBytes([[h], [body]]) == NetBytes([[h + body]])
      && FetchOf([[h], [body]], codes) == Fetched(NX_SUCCESS, LOOKALIKE)
      && FetchOf([[h + body]], codes) == Fetched(NX_NOT_FOUND, [])
  {
    hide *;
    LookalikeLength();
    LookalikeDecodes();
    TwoFetches(start, ls, LookalikeBody(), codes);
  }

  // ---------------------------------------------------------------- bodies of announced length

  /** The first `k` chains make up the body, and none of them but the last may be missing for that. */
  ghost predicate MakeUp(net: seq<seq<seq<Byte>>>, k: nat, left: nat) {
    && 1 <= k <= |net| && |NetBytes(net[..k])| == left && (left > 0 ==> Flatten(net[k - 1]) != [])
    && (left == 0 ==> k == 1)
  }

  /** None of the first `k` chains but the last is empty. */
  ghost predicate NoGap(net: seq<seq<seq<Byte>>>, k: nat)
    requires k <= |net|
  {
    forall i :: 0 <= i < k - 1 ==> Flatten(net[i]) != []
  }

  /** Chain number `k` is empty, the chains before it are not, and they do not make up the body. */
  ghost predicate Gap(net: seq<seq<seq<Byte>>>, k: nat, left: nat) {
    && k < |net| && Flatten(net[k]) == [] && |NetBytes(net[..k])| < left
    && forall i :: 0 <= i < k ==> Flatten(net[i]) != []
  }

  lemma FirstOf(net: seq<seq<seq<Byte>>>, k: nat)
    requires 1 <= k <= |net|
    ensures NetBytes(net[..k]) == Flatten(net[0]) + NetBytes(net[1..][..k - 1])
  {
    assert net[..k][1..] == net[1..][..k - 1];
  }

  /** The body in `k` chains, and in the `k - 1` chains behind the first one. */
  lemma MakeUpNext(net: seq<seq<seq<Byte>>>, k: nat, left: nat)
    requires net != [] && 0 < |Flatten(net[0])| < left && 1 <= k < |net|
    ensures (MakeUp(net, k + 1, left) && NoGap(net, k + 1))
       <==> (MakeUp(net[1..], k, left - |Flatten(net[0])|) && NoGap(net[1..], k))
    ensures Gap(net, k, left) <==> Gap(net[1..], k - 1, left - |Flatten(net[0])|)
  {
    var rest := net[1..];
    FirstOf(net, k + 1);
    FirstOf(net, k);
    hide Flatten, NetBytes;
    assert rest[k - 1] == net[k];
    assert forall i :: 0 <= i < |rest| ==> rest[i] == net[i + 1];
    if NoGap(rest, k) {
      forall i | 0 <= i < k
        ensures Flatten(net[i]) != []
      {
        assert i > 0 ==> net[i] == rest[i - 1];
      }
    }
    if Gap(rest, k - 1, left - |Flatten(net[0])|) {
      forall i | 0 <= i < k
        ensures Flatten(net[i]) != []
      {
        assert i > 0 ==> net[i] == rest[i - 1];
      }
    }
  }

  /** A first chain that does not leave more of the body open decides alone. */
  lemma MakeUpFirst(net: seq<seq<seq<Byte>>>, k: nat, left: nat)
    requires net != [] && (|Flatten(net[0])| >= left || Flatten(net[0]) == [])
    ensures |Flatten(net[0])| > left ==> !MakeUp(net, k, left)
    ensures |Flatten(net[0])| < left ==> !(MakeUp(net, k, left) && NoGap(net, k))
    ensures |Flatten(net[0])| == left ==> MakeUp(net, 1, left) && NoGap(net, 1)
    ensures Gap(net, k, left) ==> k == 0 && |Flatten(net[0])| < left
  {
    assert net[..0] == [];
    FirstOf(net, 1);
    assert net[1..][..0] == [] && Flatten(net[0]) + [] == Flatten(net[0]);
    if 1 <= k <= |net| {
      FirstOf(net, k);
    }
  }

  /** A fetch of a body of announced length is a success without all of it if and only if there is a gap. */
  lemma {:induction false} FixedFetched(left: nat, net: seq<seq<seq<Byte>>>)
    requires left < UINT_RANGE
    ensures var f := FetchFixed(left, net);
      && f.content <= NetBytes(net) && |f.content| <= left
      && (f.status == NX_SUCCESS && |f.content| == left <==> exists k: nat :: MakeUp(net, k, left) && NoGap(net, k))
      && (f.status == NX_SUCCESS && |f.content| < left <==> exists k: nat :: Gap(net, k, left))
    decreases |net|
  {
    assert left % UINT_RANGE == left;
    if net != [] {
      var part, rest := Flatten(net[0]), net[1..];
      if part == [] || |part| >= left {
        FixedEnds(left, net);
      } else {
        var f := FetchFixed(left - |part|, rest);
        FixedFetched(left - |part|, rest);
        FixedGoesOn(left, net, f);
      }
    } else {
      assert FetchFixed(left, net).content == [];
    }
  }

  lemma {:induction false} FixedEnds(left: nat, net: seq<seq<seq<Byte>>>)
    requires left < UINT_RANGE && net != [] && (Flatten(net[0]) == [] || |Flatten(net[0])| >= left)
    ensures var f := FetchFixed(left, net);
      && f.content <= NetBytes(net) && |f.content| <= left
      && (f.status == NX_SUCCESS && |f.content| == left <==> exists k: nat :: MakeUp(net, k, left) && NoGap(net, k))
      && (f.status == NX_SUCCESS && |f.content| < left <==> exists k: nat :: Gap(net, k, left))
  {
    var part, f := Flatten(net[0]), FetchFixed(left, net);
    assert left % UINT_RANGE == left;
    assert |part| <= left ==> f == FetchPart(left, part, net[1..]) == Fetched(NX_SUCCESS, part);
    assert |part| > left ==> f == Fetched(NX_WEB_HTTP_BAD_PACKET_LENGTH, []);
    hide FetchFixed, FetchPart;
    EndsComplete(net, left);
    EndsGap(net, left);
  }

  lemma EndsComplete(net: seq<seq<seq<Byte>>>, left: nat)
    requires net != [] && (Flatten(net[0]) == [] || |Flatten(net[0])| >= left)
    ensures (exists k: nat :: MakeUp(net, k, left) && NoGap(net, k)) <==> |Flatten(net[0])| == left
  {
    if exists k: nat :: MakeUp(net, k, left) && NoGap(net, k) {
      var k: nat :| MakeUp(net, k, left) && NoGap(net, k);
      MakeUpFirst(net, k, left);
    }
    if |Flatten(net[0])| == left {
      MakeUpFirst(net, 1, left);
      assert MakeUp(net, 1, left) && NoGap(net, 1);
    }
  }

  lemma EndsGap(net: seq<seq<seq<Byte>>>, left: nat)
    requires net != [] && (Flatten(net[0]) == [] || |Flatten(net[0])| >= left)
    ensures (exists k: nat :: Gap(net, k, left)) <==> |Flatten(net[0])| < left
  {
    if exists k: nat :: Gap(net, k, left) {
      var k: nat :| Gap(net, k, left);
      MakeUpFirst(net, k, left);
    }
    if |Flatten(net[0])| < left {
      assert net[..0] == [] && NetBytes([]) == [];
      assert Gap(net, 0, left);
    }
  }

  lemma FixedGoesOn(left: nat, net: seq<seq<seq<Byte>>>, f: Fetched)
    requires net != [] && 0 < |Flatten(net[0])| < left < UINT_RANGE
    requires var rest, less := net[1..], left - |Flatten(net[0])|;
      && f == FetchFixed(less, rest) && f.content <= NetBytes(rest) && |f.content| <= less
      && (f.status == NX_SUCCESS && |f.content| == less <==> exists k: nat :: MakeUp(rest, k, less) && NoGap(rest, k))
      && (f.status == NX_SUCCESS && |f.content| < less <==> exists k: nat :: Gap(rest, k, less))
    ensures var f := FetchFixed(left, net);
      && f.content <= NetBytes(net) && |f.content| <= left
      && (f.status == NX_SUCCESS && |f.content| == left <==> exists k: nat :: MakeUp(net, k, left) && NoGap(net, k))
      && (f.status == NX_SUCCESS && |f.content| < left <==> exists k: nat :: Gap(net, k, left))
  {
    var part, rest, less := Flatten(net[0]), net[1..], left - |Flatten(net[0])|;
    assert left % UINT_RANGE == left;
    var g := FetchFixed(left, net);
    assert g == FetchPart(left, part, rest);
    assert g == Fetch.Behind(part, f);
    assert NetBytes(rest) == f.content + NetBytes(rest)[|f.content|..];
    Assoc(part, f.content, NetBytes(rest)[|f.content|..]);
    assert NetBytes(net) == part + NetBytes(rest);
    assert g.content <= NetBytes(net);
    hide FetchFixed, NetBytes, Flatten;
    GoesOnComplete(net, left);
    GoesOnGap(net, left);
  }

  lemma GoesOnComplete(net: seq<seq<seq<Byte>>>, left: nat)
    requires net != [] && 0 < |Flatten(net[0])| < left
    ensures var rest, less := net[1..], left - |Flatten(net[0])|;
      (exists k: nat :: MakeUp(net, k, left) && NoGap(net, k))
      <==> (exists k: nat :: MakeUp(rest, k, less) && NoGap(rest, k))
  {
    var rest, less := net[1..], left - |Flatten(net[0])|;
    if exists k: nat :: MakeUp(net, k, left) && NoGap(net, k) {
      var k: nat :| MakeUp(net, k, left) && NoGap(net, k);
      OneIsLess(net, left);
      hide MakeUp, NoGap;
      assert 2 <= k <= |net| by {
        MakeUpRange(net, k, left);
      }
      MakeUpNext(net, k - 1, left);
    }
    if exists k: nat :: MakeUp(rest, k, less) && NoGap(rest, k) {
      var k: nat :| MakeUp(rest, k, less) && NoGap(rest, k);
      MakeUpRange(rest, k, less);
      hide MakeUp, NoGap;
      MakeUpNext(net, k, left);
    }
  }

  lemma MakeUpRange(net: seq<seq<seq<Byte>>>, k: nat, left: nat)
    requires MakeUp(net, k, left)
    ensures 1 <= k <= |net|
  {
  }

  lemma OneIsLess(net: seq<seq<seq<Byte>>>, left: nat)
    requires net != [] && |Flatten(net[0])| < left
    ensures !MakeUp(net, 1, left)
  {
    FirstOf(net, 1);
    assert net[1..][..0] == [];
  }

  lemma GoesOnGap(net: seq<seq<seq<Byte>>>, left: nat)
    requires net != [] && 0 < |Flatten(net[0])| < left
    ensures var rest, less := net[1..], left - |Flatten(net[0])|;
      (exists k: nat :: Gap(net, k, left)) <==> (exists k: nat :: Gap(rest, k, less))
  {
    var rest, less := net[1..], left - |Flatten(net[0])|;
    if exists k: nat :: Gap(net, k, left) {
      var k: nat :| Gap(net, k, left);
      assert 1 <= k < |net|;
      MakeUpNext(net, k, left);
    }
    if exists k: nat :: Gap(rest, k, less) {
      var k: nat :| Gap(rest, k, less);
      assert k < |rest|;
      MakeUpNext(net, k + 1, left);
    }
  }

  /** The first part of a body of announced length and the `k` chains after it are the whole body. */
  ghost predicate FixedBody(net: seq<seq<seq<Byte>>>, part: seq<Byte>, k: nat, n: nat) {
    k <= |net| && |part| + |NetBytes(net[..k])| == n && (k > 0 ==> Flatten(net[k - 1]) != [])
  }

  /** The body is complete with the first part, or that has some of it and no empty chain comes before the end. */
  ghost predicate Completes(net: seq<seq<seq<Byte>>>, part: seq<Byte>, n: nat) {
    exists k: nat :: FixedBody(net, part, k, n) && (k == 0 || (part != [] && NoGap(net, k)))
  }

  lemma CompletesAtOnce(net: seq<seq<seq<Byte>>>, part: seq<Byte>, n: nat)
    requires |part| >= n || part == []
    ensures Completes(net, part, n) <==> |part| == n
  {
    assert net[..0] == [];
    assert |part| == n ==> FixedBody(net, part, 0, n);
    if Completes(net, part, n) {
      var k: nat :| FixedBody(net, part, k, n) && (k == 0 || (part != [] && NoGap(net, k)));
      if k > 0 {
        LastCounts(net, k);
      }
    }
  }

  lemma CompletesLater(net: seq<seq<seq<Byte>>>, part: seq<Byte>, n: nat)
    requires 0 < |part| < n
    ensures Completes(net, part, n) <==> exists k: nat :: MakeUp(net, k, n - |part|) && NoGap(net, k)
  {
    assert net[..0] == [];
    hide Flatten, NoGap;
    if Completes(net, part, n) {
      var k: nat :| FixedBody(net, part, k, n) && (k == 0 || (part != [] && NoGap(net, k)));
      assert NetBytes([]) == [];
      assert k > 0;
      assert MakeUp(net, k, n - |part|) && NoGap(net, k);
    }
    if exists k: nat :: MakeUp(net, k, n - |part|) && NoGap(net, k) {
      var k: nat :| MakeUp(net, k, n - |part|) && NoGap(net, k);
      assert FixedBody(net, part, k, n);
    }
  }

  lemma {:induction false} LastCounts(net: seq<seq<seq<Byte>>>, k: nat)
    requires 1 <= k <= |net| && Flatten(net[k - 1]) != []
    ensures NetBytes(net[..k]) != []
  {
    FirstOf(net, k);
    if k > 1 {
      LastCounts(net[1..], k - 1);
    }
  }

  lemma {:induction false} FixedPrefix(left: int, net: seq<seq<seq<Byte>>>)
    ensures FetchFixed(left, net).content <= NetBytes(net)
    decreases |net|
  {
    if net != [] {
      var part := Flatten(net[0]);
      FixedPrefix(left - |part|, net[1..]);
      PrefixBehind(part, FetchFixed(left - |part|, net[1..]).content, NetBytes(net[1..]));
    }
  }

  lemma {:induction false} PartsFetched(net: seq<seq<seq<Byte>>>, part: seq<Byte>, n: nat)
    requires n < UINT_RANGE
    ensures var f := FetchPart(n, part, net);
      && f.content <= part + NetBytes(net) && (|part| <= n ==> |f.content| <= n)
      && (f.status == NX_SUCCESS && |f.content| == n <==> Completes(net, part, n))
  {
    var f := FetchPart(n, part, net);
    var g := FetchFixed(n - |part|, net);
    FixedPrefix(n - |part|, net);
    PrefixBehind(part, g.content, NetBytes(net));
    if part == [] || |part| >= n {
      CompletesAtOnce(net, part, n);
    } else {
      FixedFetched(n - |part|, net);
      CompletesLater(net, part, n);
    }
    hide FetchFixed, Completes, MakeUp, NoGap, Gap;
  }

  /**
   What is fetched of a response of announced length is always the beginning of its body and never more than that
   length. It is all of it if and only if the first chain does not have more than that, and either has all of the body,
   or some of it and no empty chain comes before the end. A first chain with more is refused.
   */
  lemma {:induction false} FixedResponseFetched(net: seq<seq<seq<Byte>>>, start: seq<Byte>, ls: seq<HeaderLine>,
      body: seq<Byte>, codes: map<seq<Byte>, nat>, o: Opening)
    requires Arrives(net, start, ls, body, codes) && Fetch.Found(Header(net), o) && !Chunked(FieldsRead(ls))
    ensures var f, n, h := FetchAll(Header(net), codes, false, o), ContentLength(net[0][0]), |WriteHeader(start, ls)|;
      var all := Flatten(net[0]);
      && h <= |all| && f.content <= body && |f.content| <= n
      && (|all| > (h + n) % UINT_RANGE ==> f == Fetched(NX_WEB_HTTP_BAD_PACKET_LENGTH, []))
      && (f.status == NX_SUCCESS && |f.content| == n
          <==> |all| <= (h + n) % UINT_RANGE && Completes(net[1..], all[h..], n))
  {
    hide *;
    ArrivesParts(net, start, ls, body, codes);
    Layers(net, start, ls, body, codes);
    FixedJudged(net, start, ls, body, codes, o);
    ContentLengthRange(net[0][0]);
    FixedOutcome(Flatten(net[0]), net[1..], |WriteHeader(start, ls)|, ContentLength(net[0][0]));
  }

  lemma {:induction false} FixedOutcome(all: seq<Byte>, rest: seq<seq<seq<Byte>>>, h: nat, n: nat)
    requires h <= |all| && n < UINT_RANGE
    ensures var refused := |all| > (h + n) % UINT_RANGE;
      var f := if refused then Fetched(NX_WEB_HTTP_BAD_PACKET_LENGTH, []) else FetchPart(n, all[h..], rest);
      && f.content <= all[h..] + NetBytes(rest) && |f.content| <= n
      && (f.status == NX_SUCCESS && |f.content| == n <==> !refused && Completes(rest, all[h..], n))
  {
    if |all| <= (h + n) % UINT_RANGE {
      hide FetchPart, Completes, NetBytes;
      PartsFetched(rest, all[h..], n);
    }
  }

  lemma {:induction false} FixedJudged(net: seq<seq<seq<Byte>>>, start: seq<Byte>, ls: seq<HeaderLine>, body: seq<Byte>,
      codes: map<seq<Byte>, nat>, o: Opening)
    requires Arrives(net, start, ls, body, codes) && Fetch.Found(Header(net), o) && !Chunked(FieldsRead(ls))
    ensures var n, h, all := ContentLength(net[0][0]), |WriteHeader(start, ls)|, Flatten(net[0]);
      && h <= |all|
      && FetchAll(Header(net), codes, false, o) ==
           if |all| > (h + n) % UINT_RANGE then Fetched(NX_WEB_HTTP_BAD_PACKET_LENGTH, [])
           else FetchPart(n, all[h..], net[1..])
  {
    HeaderAccepted(net, start, ls, body, codes, o);
    Layers(net, start, ls, body, codes);
    hide *;
    JudgedFetch(net, codes, |WriteHeader(start, ls)|, ContentLength(net[0][0]));
  }

  lemma {:induction false} JudgedFetch(net: seq<seq<seq<Byte>>>, codes: map<seq<Byte>, nat>, h: nat, n: nat)
    requires net != [] && net[0] != [] && ScanFrom(NetBytes(net), 0).Found? && h <= |Flatten(net[0])|
    requires Judge(net[0][0], |Flatten(net[0])|, codes) == VerdictOf(h, n, |Flatten(net[0])|, false)
    ensures FetchAll(Header(net), codes, false, OpeningOf(net)) ==
      if |Flatten(net[0])| > (h + n) % UINT_RANGE then Fetched(NX_WEB_HTTP_BAD_PACKET_LENGTH, [])
      else FetchPart(n, Flatten(net[0])[h..], net[1..])
  {
    hide Judge, FetchPart, ScanFrom, NetBytes, Flatten;
  }

  /**
   A header that arrives in a packet of its own: the fetch is a success without any bytes, although all of the body is
   on its way. The same bytes in one packet are fetched completely.
   */
  lemma {:induction false} HeaderAlone(start: seq<Byte>, ls: seq<HeaderLine>, body: seq<Byte>, codes: map<seq<Byte>,
      nat>)
    requires ValidHeader(start, ls) && Success(start, codes) && !Chunked(FieldsRead(ls)) && body != []
    requires var h := WriteHeader(start, ls);
      HasToken(h) && ContentLength(h) == |body| && |h| + |body| < UINT_RANGE
    ensures var h := WriteHeader(start, ls);
      && Arrives([[h], [body]], start, ls, body, codes) && Arrives([[h + body]], start, ls, body, codes)
      && FetchOf([[h], [body]], codes) == Fetched(NX_SUCCESS, [])
      && FetchOf([[h + body]], codes) == Fetched(NX_SUCCESS, body)
  {
    var h := WriteHeader(start, ls);
    HeaderEnds(start, ls);
    TwoDeliveries(start, ls, body, codes);
    LinesLength(h, body);
    hide *;
    assert h + [] == h;
    AloneFetched([[h], [body]], start, ls, body, codes, []);
    AloneFetched([[h + body]], start, ls, body, codes, body);
  }

  lemma {:induction false} AloneFetched(net: seq<seq<seq<Byte>>>, start: seq<Byte>, ls: seq<HeaderLine>,
      body: seq<Byte>, codes: map<seq<Byte>, nat>, part: seq<Byte>)
    requires Arrives(net, start, ls, body, codes) && !Chunked(FieldsRead(ls))
    requires |net| >= 1 && net[0] == [WriteHeader(start, ls) + part] && ContentLength(net[0][0]) == |body|
    requires (part == [] || part == body) && |WriteHeader(start, ls)| + |body| < UINT_RANGE
    ensures FetchOf(net, codes) == Fetched(NX_SUCCESS, part)
  {
    hide *;
    var h, n := WriteHeader(start, ls), |body|;
    OnePacket(h + part);
    Cancelled(h, part, n);
    PartAtOnce(n, part, net[1..]);
    FetchJudged(net, start, ls, body, codes);
  }

  lemma {:induction false} FetchJudged(net: seq<seq<seq<Byte>>>, start: seq<Byte>, ls: seq<HeaderLine>,
      body: seq<Byte>, codes: map<seq<Byte>, nat>)
    requires Arrives(net, start, ls, body, codes) && !Chunked(FieldsRead(ls))
    ensures net != [] && net[0] != []
    ensures var n, h, all := ContentLength(net[0][0]), |WriteHeader(start, ls)|, Flatten(net[0]);
      && h <= |all|
      && (|all| <= (h + n) % UINT_RANGE ==> FetchOf(net, codes) == FetchPart(n, all[h..], net[1..]))
  {
    hide *;
    ArrivesParts(net, start, ls, body, codes);
    HeaderAccepted(net, start, ls, body, codes, OpeningOf(net));
    FixedJudged(net, start, ls, body, codes, OpeningOf(net));
    FetchOfIs(net, codes);
  }

  lemma Cancelled(h: seq<Byte>, part: seq<Byte>, n: nat)
    requires |part| <= n && |h| + n < UINT_RANGE
    ensures (h + part)[|h|..] == part && |h + part| <= (|h| + n) % UINT_RANGE
  {
  }

  lemma {:induction false} PartAtOnce(n: nat, part: seq<Byte>, net: seq<seq<seq<Byte>>>)
    requires part == [] || |part| == n
    ensures FetchPart(n, part, net) == Fetched(NX_SUCCESS, part)
  {
  }

  lemma FetchOfIs(net: seq<seq<seq<Byte>>>, codes: map<seq<Byte>, nat>)
    requires net != [] && net[0] != []
    ensures FetchOf(net, codes) == FetchAll(Header(net), codes, false, OpeningOf(net))
  {
    hide FetchAll;
  }
}
