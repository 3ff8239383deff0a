/**
 Requests one after another on one connection, with one buffer for what they fetch: what each of them finds, how it is
 answered, and what it leaves to the next one.
 */
module Requests {
  import opened Bytes
  import opened Packets
  import opened HttpClient
  import opened HeaderFields
  import opened HeaderScan
  import opened ResponseBody
  import opened Fetch
  import opened Responses
  import opened Ranges

  const BUFFER_SIZE: nat := 4096

  /** All that will arrive for a request: chains, each a list of packet contents. */
  type Net = seq<seq<seq<Byte>>>

  /**
   What happens to a request: whether it can be built and, if not, whether that breaks the connection off, whether the
   connection takes it, and what the server sends then.
   */
  datatype Exchange = Exchange(built: bool, broken: bool, sent: bool, net: Net)

  /** What arrives: whatever the server sends, in chains as they come. */
  function ReplyOf(e: Exchange): (net: Net)
    ensures NetOk(net)
  {
    if NetOk(e.net) then e.net else []
  }

  /**
   Where requests stand between two of them: what the connection has left of earlier responses, whether it is up and to
   be kept, whether a field reader has left its packet (from then on nothing is known), and what the buffer holds.
   */
  datatype Line = Line(left: View, up: bool, keep: bool, strayed: bool, buffer: seq<Byte>)

  /** How a request was answered: it may not have been sent, or its response made the field reader leave its packet. */
  datatype Reply = Unsent | Strayed | Answered(net: Net, opening: Opening)

  /**
   A request for the bytes from `start` to `end`, both included: whether it was taken for a success, what it put into
   the front of the buffer then, what happened to it, how it was answered, and where it found and left the connection
   and the buffer.
   */
  datatype Attempt = Attempt(start: nat, end: nat, ok: bool, got: seq<Byte>, line: Line, exchange: Exchange,
                             reply: Reply, after: Line)

  // ---------------------------------------------------------------- one request

  /** A buffer with bytes put over its front. */
  function Overlay(buffer: seq<Byte>, got: seq<Byte>): (b: seq<Byte>)
    requires |got| <= |buffer|
    ensures |b| == |buffer|
  {
    got + buffer[|got|..]
  }

  /** Whether the connection is to be kept, as the header says that the fetch of a view reads, if it reads one. */
  ghost function KeepBehind(keep: bool, v: View, o: Opening): bool {
    Noted(Notes(keep, false, []), v, STATUS_MAPS, o).keep
  }

  /** The fields that the fetch of a view reports to an application that asked for them, if it reads a header. */
  ghost function ReportedBy(v: View, o: Opening): seq<Field> {
    Noted(Notes(false, true, []), v, STATUS_MAPS, o).reported
  }

  /** What the application is told of the fields of a reply, if it asked for them. */
  ghost predicate Informed(was: Notes, now: Notes, line: Line, reply: Reply) {
    && now.listening == was.listening && |was.reported| <= |now.reported|
    && (was.listening && reply.Answered? ==>
          now.reported == was.reported + ReportedBy(Await(line.left, reply.net), reply.opening))
  }

  lemma InformedBy(was: Notes, v: View, o: Opening)
    ensures var now := Noted(was, v, STATUS_MAPS, o);
      && now.listening == was.listening && |was.reported| <= |now.reported|
      && (was.listening ==> now.reported == was.reported + ReportedBy(v, o))
  {
    hide NetBytes, ScanFrom, Keeps, Reads, Reports;
    assert was.reported + [] == was.reported && [] + Reports(o.first) == Reports(o.first);
  }

  lemma InformedParts(was: Notes, now: Notes, line: Line, reply: Reply)
    requires Informed(was, now, line, reply) && was.listening
    ensures |was.reported| <= |now.reported|
    ensures reply.Answered? ==>
      now.reported == was.reported + ReportedBy(Await(line.left, reply.net), reply.opening)
  {
    hide ReportedBy, Await;
  }

  lemma NotInformed(now: Notes, line: Line)
    ensures Informed(now, now, line, Unsent) && Informed(now, now, line, Strayed)
  {
  }

  lemma InformedIs(was: Notes, now: Notes, line: Line, net: Net, o: Opening, overrun: bool)
    requires now == Noted(was, Await(line.left, net), STATUS_MAPS, o)
    ensures Informed(was, now, line, if overrun then Strayed else Answered(net, o))
  {
    InformedBy(was, Await(line.left, net), o);
    hide Noted, Await, ReportedBy;
  }

  /**
   A request on a connection: how it was answered, and how it leaves the connection. It is not sent exactly if it cannot
   be built, the connection is broken off, or does not take it. Behind a response that failed, or ended and does not
   keep it, the connection is broken off.
   */
  ghost predicate Asked(head: bool, line: Line, e: Exchange, ok: bool, reply: Reply, after: Line) {
    if line.strayed then after.strayed && reply == Strayed
    else match reply
      case Unsent =>
        && !ok && !(e.built && line.up && e.sent) && after.left == line.left && after.keep == line.keep
        && after.up == (line.up && !e.built && !e.broken) && !after.strayed
      case Strayed =>
        e.built && line.up && e.sent && after.strayed && Strays(Await(line.left, ReplyOf(e)))
      case Answered(net, o) =>
        var v := Await(line.left, net);
        && e.built && line.up && e.sent && net == ReplyOf(e) && !after.strayed && Fetch.Found(v, o)
        && (ok <==> FetchAll(v, STATUS_MAPS, head, o).status == NX_SUCCESS)
        && (ok ==> after.left == Remains(v, STATUS_MAPS, head, o))
        && after.keep == KeepBehind(line.keep, v, o) && after.up == (ok && (!after.left.Header? || after.keep))
  }

  /** Whether a response that is left makes the field reader leave its packet. */
  ghost predicate Strays(v: View) {
    exists o :: v.Header? && Overruns(v.net, STATUS_MAPS, o)
  }

  /** What a successful request puts into the front of the buffer: what it fetches, as far as there is room. */
  ghost predicate Fills(line: Line, got: seq<Byte>, reply: Reply, after: Line) {
    && |got| <= |line.buffer| && after.buffer == Overlay(line.buffer, got)
    && (reply.Answered? ==>
          var v := Await(line.left, reply.net);
          Holding(after.buffer, |got|, FetchAll(v, STATUS_MAPS, false, reply.opening).content))
  }

  ghost predicate Made(t: Attempt) {
    && Asked(false, t.line, t.exchange, t.ok, t.reply, t.after) && |t.line.buffer| == |t.after.buffer| == BUFFER_SIZE
    && (t.ok ==> Fills(t.line, t.got, t.reply, t.after))
  }

  /** Requests one after another. */
  ghost predicate Talk(line: Line, a: seq<Attempt>)
    decreases |a|
  {
    a != [] ==> a[0].line == line && Made(a[0]) && Talk(a[0].after, a[1..])
  }

  function LineAfter(line: Line, a: seq<Attempt>): Line {
    if a == [] then line else a[|a| - 1].after
  }

  lemma {:induction false} TalkJoin(line: Line, a: seq<Attempt>, b: seq<Attempt>)
    requires Talk(line, a) && Talk(LineAfter(line, a), b)
    ensures Talk(line, a + b) && LineAfter(line, a + b) == LineAfter(LineAfter(line, a), b)
    decreases |a|
  {
    if a == [] {
      assert a + b == b;
    } else {
      assert (a + b)[1..] == a[1..] + b;
      hide Made;
      TalkJoin(a[0].after, a[1..], b);
    }
  }

  /** The data of a block after a request is what the buffer holds. */
  predicate Carries(t: Attempt, data: seq<Byte>) {
    |data| <= |t.after.buffer| && data == t.after.buffer[..|data|]
  }

  /**
   What a request put into the buffer is the beginning of the block of `n` bytes that it was for, and where it ends
   early the buffer happened to hold the rest.
   */
  predicate Whole(t: Attempt, file: seq<Byte>, n: nat) {
    && n <= |t.line.buffer| && t.start + n <= |file|
    && var m := if |t.got| <= n then |t.got| else n;
    && t.got[..m] == file[t.start..t.start + m]
    && t.line.buffer[m..n] == file[t.start + m..t.start + n]
  }

  lemma MadeBuffer(t: Attempt)
    requires Made(t) && t.ok
    ensures |t.got| <= BUFFER_SIZE == |t.line.buffer| && t.after.buffer == Overlay(t.line.buffer, t.got)
  {
    hide Asked, FetchAll, Await, Holding;
  }

  /** What is in the buffer behind a request is its block exactly if it is whole. */
  lemma WholeData(t: Attempt, file: seq<Byte>, n: nat)
    requires |t.got| <= |t.line.buffer| && t.after.buffer == Overlay(t.line.buffer, t.got)
    requires n <= |t.after.buffer| && t.start + n <= |file|
    ensures t.after.buffer[..n] == file[t.start..t.start + n] <==> Whole(t, file, n)
  {
    var m := if |t.got| <= n then |t.got| else n;
    assert t.after.buffer[..n] == t.got[..m] + t.line.buffer[m..n];
    assert file[t.start..t.start + n] == file[t.start..t.start + m] + file[t.start + m..t.start + n];
    SameParts(t.got[..m], t.line.buffer[m..n], file[t.start..t.start + m], file[t.start + m..t.start + n]);
  }

  lemma {:induction false} TalkMore(line: Line, a: seq<Attempt>, t: Attempt)
    requires Talk(line, a) && Made(t) && t.line == LineAfter(line, a)
    ensures Talk(line, a + [t]) && LineAfter(line, a + [t]) == t.after
  {
    assert [t][1..] == [];
    hide Made;
    TalkJoin(line, a, [t]);
  }

  // ---------------------------------------------------------------- making a request

  /** Where the requests on a connection stand. */
  ghost function LineOf(c: Client, strayed: bool, buffer: array<Byte>): Line
    reads c, c.held, buffer
  {
    Line(ViewOf(c), c.connected, c.keepAlive, strayed, buffer[..])
  }

  lemma LineIs(c: Client, strayed: bool, buffer: array<Byte>)
    ensures LineOf(c, strayed, buffer) == Line(ViewOf(c), c.connected, c.keepAlive, strayed, buffer[..])
  {
    hide ViewOf;
  }

  /** A connection that is up has everything in order. */
  ghost predicate Usable(c: Client, strayed: bool)
    reads c, c.held
  {
    !strayed && c.connected ==> Quiet(c) && Session(c)
  }

  /** Anything may be in the buffer. */
  method Scribble(buffer: array<Byte>)
    modifies buffer
  {
    var i := 0;
    while i < buffer.Length {
      buffer[i] := *;
      i := i + 1;
    }
  }

  /** Builds a request; a failure may break the connection off. */
  method Build(c: Client, e: Exchange) returns (built: bool)
    modifies c`connected
    ensures built == e.built && c.connected == (old(c.connected) && (e.built || !e.broken))
  {
    built := e.built;
    if !built && e.broken {
      c.connected := false;
    }
  }

  lemma NotSent(head: bool, line: Line, e: Exchange, after: Line)
    requires !line.strayed && !after.strayed && after.left == line.left && after.keep == line.keep
    requires !(e.built && line.up && e.sent) && after.up == (line.up && !e.built && !e.broken)
    ensures Asked(head, line, e, false, Unsent, after)
  {
  }

  /** How the fetch of a reply answers a request. */
  lemma FetchAnswers(c: Client, buffer: array<Byte>, state: nat, line: Line, e: Exchange, handed: set<Packet>,
      was: Notes, o: Opening, length: nat, status: Status, overrun: bool)
    requires var v := Await(line.left, ReplyOf(e));
      FetchEnds(c, STATUS_MAPS, buffer, line.buffer, v, state, handed, true, was, o, length, status, overrun)
    requires line.up && !line.strayed && e.built && e.sent && was.keep == line.keep
    ensures overrun ==> Strays(Await(line.left, ReplyOf(e)))
    ensures !overrun ==>
      && Asked(state == STATE_HEAD, line, e, status == NX_SUCCESS, Answered(ReplyOf(e), o), LineOf(c, false, buffer))
      && (status == NX_SUCCESS ==> Quiet(c) && Session(c)) && (c.connected ==> status == NX_SUCCESS)
      && (status == NX_SUCCESS ==>
            var v := Await(line.left, ReplyOf(e));
            Holding(buffer[..], length, FetchAll(v, STATUS_MAPS, state == STATE_HEAD, o).content))
    ensures Untouched(buffer[..], line.buffer, length)
    ensures NotesOf(c) == Noted(was, Await(line.left, ReplyOf(e)), STATUS_MAPS, o)
  {
    var v := Await(line.left, ReplyOf(e));
    KeptAs(was, v, o);
    hide FetchAll, Remains, Quiet, Session, Holding, Untouched, Await, ReplyOf, Noted, Fetch.Found, Overruns, Connected;
    hide ChunkedBody, KeepBehind;
    if overrun {
      assert Strays(v);
    } else {
      LeftHeader(c);
    }
  }

  lemma KeptAs(was: Notes, v: View, o: Opening)
    ensures Noted(was, v, STATUS_MAPS, o).keep == KeepBehind(was.keep, v, o)
  {
    hide NetBytes, Keeps, Reads, Reports;
  }

  lemma LeftHeader(c: Client)
    ensures ViewOf(c).Header? <==> !c.responseHeaderReceived
  {
  }

  /** Fetches the response to a request that is sent. */
  method FetchReply(c: Client, state: nat, buffer: array<Byte>, ghost line: Line, ghost e: Exchange)
    returns (ok: bool, strayed: bool, ghost got: seq<Byte>, ghost reply: Reply)
    requires Session(c) && c.state == state && c.connected && ViewOf(c) == Await(line.left, ReplyOf(e))
    requires Quiet(c) && (state == STATE_GET || state == STATE_HEAD)
    requires line.up && !line.strayed && line.buffer == buffer[..] && e.built && e.sent && c.keepAlive == line.keep
    modifies c, buffer
    ensures Usable(c, strayed)
    ensures Asked(state == STATE_HEAD, line, e, ok, reply, LineOf(c, strayed, buffer))
    ensures ok && state == STATE_GET ==> Fills(line, got, reply, LineOf(c, strayed, buffer))
    ensures Informed(old(NotesOf(c)), NotesOf(c), line, reply)
  {
    ghost var v, was, handed := Await(line.left, ReplyOf(e)), NotesOf(c), c.handed;
    NothingHeld(c);
    NotesAre(c);
    SendStates();
    hide *;
    var status, length, overrun;
    ghost var o;
    status, length, overrun, o := GetResponse(c, STATUS_MAPS, buffer, v);
    FetchAnswers(c, buffer, state, line, e, handed, was, o, length, status, overrun);
    InformedIs(was, NotesOf(c), line, ReplyOf(e), o, overrun);
    if overrun {
      Scribble(buffer);
      ok, strayed, got, reply := *, true, buffer[..], Strayed;
      StraysAway(state == STATE_HEAD, line, e, ok, got, LineOf(c, true, buffer));
      UsableIs(c, true, ok);
      return;
    }
    ok, strayed, got, reply := status == NX_SUCCESS, false, [], Answered(ReplyOf(e), o);
    UsableIs(c, false, ok);
    if ok {
      got := buffer[..length];
      FillsIs(line, got, reply, LineOf(c, false, buffer), state == STATE_HEAD, length);
    }
  }

  lemma NothingHeld(c: Client)
    requires Quiet(c)
    ensures Nodes(c.held) == {}
  {
  }

  lemma NotesAre(c: Client)
    ensures NotesOf(c) == Notes(c.keepAlive, c.responseCallback, c.reported)
  {
  }

  lemma SendStates()
    ensures InRequest(STATE_GET) && InRequest(STATE_HEAD) && STATE_GET != STATE_HEAD
  {
  }

  lemma UsableIs(c: Client, strayed: bool, ok: bool)
    requires strayed || ((ok ==> Quiet(c) && Session(c)) && (c.connected ==> ok))
    ensures Usable(c, strayed)
  {
  }

  lemma QuietParts(c: Client)
    ensures Quiet(c) ==> c.held == [] && c.responsePacket == null && c.remainingSize == 0
    ensures Session(c) && c.held == [] && c.responsePacket == null && c.remainingSize == 0 ==> Quiet(c)
  {
    hide Owned, NetOk, Linked, Full;
  }

  /** Once a field reader has left its packet, nothing more is said. */
  lemma StraysAway(head: bool, line: Line, e: Exchange, ok: bool, got: seq<Byte>, after: Line)
    requires !line.strayed && line.up && e.built && e.sent && after.strayed && Strays(Await(line.left, ReplyOf(e)))
    requires after.buffer == got && |got| == |line.buffer|
    ensures Asked(head, line, e, ok, Strayed, after) && Fills(line, got, Strayed, after)
  {
    assert got + line.buffer[|got|..] == got;
    hide Strays, Await, ReplyOf;
  }

  lemma FillsIs(line: Line, got: seq<Byte>, reply: Reply, after: Line, head: bool, n: nat)
    requires reply.Answered? && Untouched(after.buffer, line.buffer, n)
    requires Holding(after.buffer, n, FetchAll(Await(line.left, reply.net), STATUS_MAPS, head, reply.opening).content)
    requires n <= |after.buffer| && got == after.buffer[..n]
    ensures !head ==> Fills(line, got, reply, after)
  {
    assert after.buffer == got + after.buffer[n..];
    hide FetchAll, Await;
  }

  lemma UsableConnected(c: Client, strayed: bool)
    requires Usable(c, strayed)
    ensures !strayed && c.connected ==> Session(c) && Quiet(c)
  {
  }

  lemma UsableStill(c: Client)
    requires c.connected ==> Quiet(c) && Session(c)
    ensures Usable(c, false)
  {
  }

  lemma StrayedStays(head: bool, line: Line, e: Exchange, ok: bool, got: seq<Byte>, after: Line)
    requires line.strayed && after.strayed && after.buffer == got && |got| == |line.buffer|
    ensures Asked(head, line, e, ok, Strayed, after) && Fills(line, got, Strayed, after)
  {
    assert got + line.buffer[|got|..] == got;
  }

  /** Sends a request and fetches the response to it; `wasStrayed`: a field reader has left its packet before. */
  method MakeRequest(c: Client, state: nat, buffer: array<Byte>, wasStrayed: bool, e: Exchange)
    returns (ok: bool, strayed: bool, ghost got: seq<Byte>, ghost reply: Reply)
    requires Usable(c, wasStrayed) && (state == STATE_GET || state == STATE_HEAD)
    modifies c, buffer
    ensures Usable(c, strayed)
    ensures Asked(state == STATE_HEAD, old(LineOf(c, wasStrayed, buffer)), e, ok, reply, LineOf(c, strayed, buffer))
    ensures ok && state == STATE_GET ==>
      Fills(old(LineOf(c, wasStrayed, buffer)), got, reply, LineOf(c, strayed, buffer))
    ensures Informed(old(NotesOf(c)), NotesOf(c), old(LineOf(c, wasStrayed, buffer)), reply)
  {
    hide *;
    ghost var line := LineOf(c, wasStrayed, buffer);
    got, reply, strayed := [], Unsent, wasStrayed;
    LineIs(c, wasStrayed, buffer);
    NotInformed(NotesOf(c), line);
    UsableConnected(c, wasStrayed);
    SendStates();
    if wasStrayed {
      Scribble(buffer);
      ok, got, reply := *, buffer[..], Strayed;
      LineIs(c, true, buffer);
      StrayedStays(state == STATE_HEAD, line, e, ok, got, LineOf(c, true, buffer));
      UsableIs(c, true, ok);
      return;
    }
    QuietParts(c);
    var built := Build(c, e);
    if !built {
      LineIs(c, strayed, buffer);
      NotSent(state == STATE_HEAD, line, e, LineOf(c, strayed, buffer));
      UsableStill(c);
      return false, strayed, got, reply;
    }
    var status := RequestSend(c, state, ReplyOf(e), e.sent);
    if status != NX_SUCCESS {
      LineIs(c, strayed, buffer);
      NotSent(state == STATE_HEAD, line, e, LineOf(c, strayed, buffer));
      UsableIs(c, false, false);
      return false, strayed, got, reply;
    }
    QuietParts(c);
    ok, strayed, got, reply := FetchReply(c, state, buffer, line, e);
  }

  // ---------------------------------------------------------------- requests one after another

  lemma {:induction false} TalkAt(line: Line, a: seq<Attempt>, i: nat)
    requires Talk(line, a) && i < |a|
    ensures Made(a[i]) && a[i].line == if i == 0 then line else a[i - 1].after
    decreases |a|
  {
    hide Made;
    if i > 0 {
      TalkAt(a[0].after, a[1..], i - 1);
    }
  }

  /** On a connection that is broken off no request is sent. */
  lemma {:induction false} Down(line: Line, a: seq<Attempt>, j: nat)
    requires Talk(line, a) && j < |a| && !line.up && !line.strayed
    ensures a[j].reply == Unsent && !a[j].ok
    decreases |a|
  {
    assert a[0].line == line && a[0].reply == Unsent && !a[0].ok && !a[0].after.up && !a[0].after.strayed by {
      assert Made(a[0]);
    }
    hide Made;
    if j > 0 {
      Down(a[0].after, a[1..], j - 1);
    }
  }

  /**
   Trying again is in vain: once a response has failed, every later request on the connection fails, and none is sent.
   */
  lemma {:induction false} RetriesInVain(line: Line, a: seq<Attempt>, i: nat, j: nat)
    requires Talk(line, a) && i < j < |a| && a[i].reply.Answered? && !a[i].ok
    ensures a[j].reply == Unsent && !a[j].ok
    decreases |a|
  {
    if i > 0 {
      hide Made;
      RetriesInVain(a[0].after, a[1..], i - 1, j - 1);
    } else {
      assert !a[0].after.up && !a[0].after.strayed by {
        assert Made(a[0]);
      }
      hide Made;
      Down(a[0].after, a[1..], j - 1);
    }
  }

  // ---------------------------------------------------------------- requests for ranges of a file

  /** The bytes of a file from `start` to `end`, both included, as far as it has them. */
  function Part(file: seq<Byte>, start: nat, end: nat): seq<Byte> {
    var e := if end + 1 < |file| then end + 1 else |file|;
    if start <= e then file[start..e] else []
  }

  lemma PartIs(file: seq<Byte>, start: nat, end: nat)
    ensures var p := Part(file, start, end);
      && (start <= |file| ==> start + |p| <= |file| && p == file[start..start + |p|])
      && (start <= end + 1 <= |file| ==> |p| == end + 1 - start)
      && (start <= |file| <= end + 1 ==> |p| == |file| - start)
  {
  }

  /** A request that finds nothing left of earlier ones, and is answered with the range that it asks for. */
  ghost predicate Clean(t: Attempt, file: seq<Byte>, start: seq<Byte>, ls: seq<HeaderLine>) {
    && !t.line.strayed && t.line.left == Header([]) && t.reply.Answered?
    && Replies(t.reply.net, start, ls, Part(file, t.start, t.end), STATUS_MAPS)
  }

  lemma MadeParts(t: Attempt)
    requires Made(t) && t.ok && t.reply.Answered? && !t.line.strayed
    ensures var v := Await(t.line.left, t.reply.net);
      && NetOk(t.reply.net) && Fetch.Found(v, t.reply.opening)
      && FetchAll(v, STATUS_MAPS, false, t.reply.opening).status == NX_SUCCESS
      && t.after.left == Remains(v, STATUS_MAPS, false, t.reply.opening)
      && Holding(t.after.buffer, |t.got|, FetchAll(v, STATUS_MAPS, false, t.reply.opening).content)
    ensures |t.got| <= BUFFER_SIZE == |t.line.buffer| && t.after.buffer == Overlay(t.line.buffer, t.got)
  {
    hide FetchAll, Remains, Holding, Fetch.Found, NetOk;
  }

  /** What a request has put into the buffer is what it has fetched, as far as there was room. */
  lemma GotIs(t: Attempt, content: seq<Byte>)
    requires |t.got| <= BUFFER_SIZE == |t.line.buffer| && t.after.buffer == Overlay(t.line.buffer, t.got)
    requires Holding(t.after.buffer, |t.got|, content)
    ensures t.got <= content && (|content| <= BUFFER_SIZE ==> t.got == content)
  {
    assert t.after.buffer[..|t.got|] == t.got;
  }

  lemma AwaitNothing(net: Net)
    ensures Await(Header([]), net) == Header(net)
  {
    assert [] + net == net;
  }

  lemma AwaitBehindHeader(net: Net, more: Net)
    ensures Await(Header(net), more) == Header(net + more)
  {
  }

  /**
   What a clean request puts into the buffer is the beginning of the range it asks for, and all of it exactly under the
   condition on the packets. The range is whole if and only if that, or the buffer happened to hold the bytes that did
   not arrive.
   */
  lemma {:induction false} CleanRequest(t: Attempt, file: seq<Byte>, n: nat, start: seq<Byte>, ls: seq<HeaderLine>)
    requires Made(t) && t.ok && Clean(t, file, start, ls)
    requires t.start <= |file| && n == |Part(file, t.start, t.end)| <= BUFFER_SIZE
    ensures t.start + n <= |file| && |t.line.buffer| == BUFFER_SIZE
    ensures |t.got| <= n && t.got == file[t.start..t.start + |t.got|]
    ensures var net, h := t.reply.net, WriteHeader(start, ls);
      net != [] && |h| <= |Flatten(net[0])| && (|t.got| == n <==> Completes(net[1..], FirstPart(net, h), n))
    ensures Whole(t, file, n) <==> t.line.buffer[|t.got|..n] == file[t.start + |t.got|..t.start + n]
  {
    hide *;
    var body := Part(file, t.start, t.end);
    PartIs(file, t.start, t.end);
    CleanParts(t, file, start, ls);
    MadeParts(t);
    AwaitNothing(t.reply.net);
    ReplyFetched(t.reply.net, start, ls, body, STATUS_MAPS, t.reply.opening);
    GotIs(t, FetchAll(Header(t.reply.net), STATUS_MAPS, false, t.reply.opening).content);
    PrefixWhole(t.got, body);
    PartOf(t.got, file, t.start, n);
    WholeIf(t, file, n);
  }

  lemma CleanParts(t: Attempt, file: seq<Byte>, start: seq<Byte>, ls: seq<HeaderLine>)
    requires Clean(t, file, start, ls)
    ensures !t.line.strayed && t.line.left == Header([]) && t.reply.Answered?
    ensures Replies(t.reply.net, start, ls, Part(file, t.start, t.end), STATUS_MAPS)
  {
    hide Part;
  }

  lemma PartOf(a: seq<Byte>, file: seq<Byte>, start: nat, n: nat)
    requires start + n <= |file| && a <= file[start..start + n]
    ensures |a| <= n && a == file[start..start + |a|]
  {
    assert a == file[start..start + n][..|a|];
  }

  lemma WholeIf(t: Attempt, file: seq<Byte>, n: nat)
    requires |t.got| <= n <= |t.line.buffer| && t.start + n <= |file| && t.got == file[t.start..t.start + |t.got|]
    ensures Whole(t, file, n) <==> t.line.buffer[|t.got|..n] == file[t.start + |t.got|..t.start + n]
  {
    assert t.got[..|t.got|] == t.got;
  }

  /** Whether the packets of a reply with this header let all `n` bytes of its body be fetched. */
  ghost predicate Delivers(net: Net, h: seq<Byte>, n: nat) {
    net != [] && |h| <= |Flatten(net[0])| && Completes(net[1..], FirstPart(net, h), n)
  }

  /** A request that finds nothing left of earlier ones, and is answered completely. */
  ghost predicate Satisfied(t: Attempt, file: seq<Byte>) {
    exists start, ls ::
      && Clean(t, file, start, ls)
      && Delivers(t.reply.net, WriteHeader(start, ls), |Part(file, t.start, t.end)|)
  }

  /** Such a request brings the whole range it asks for. */
  lemma CompleteRequest(t: Attempt, file: seq<Byte>, n: nat)
    requires Made(t) && t.ok && Satisfied(t, file)
    requires t.start <= |file| && n == |Part(file, t.start, t.end)| <= BUFFER_SIZE
    ensures Whole(t, file, n)
  {
    hide *;
    var start, ls := SatisfiedBy(t, file);
    DeliversIs(t.reply.net, WriteHeader(start, ls), n);
    CleanRequest(t, file, n, start, ls);
    assert t.line.buffer[n..n] == file[t.start + n..t.start + n];
  }

  lemma SatisfiedBy(t: Attempt, file: seq<Byte>) returns (start: seq<Byte>, ls: seq<HeaderLine>)
    requires Satisfied(t, file)
    ensures Clean(t, file, start, ls) && t.reply.Answered?
    ensures Delivers(t.reply.net, WriteHeader(start, ls), |Part(file, t.start, t.end)|)
  {
    hide Delivers, WriteHeader, Part, Replies;
    start, ls :|
      && Clean(t, file, start, ls)
      && Delivers(t.reply.net, WriteHeader(start, ls), |Part(file, t.start, t.end)|);
  }

  lemma DeliversIs(net: Net, h: seq<Byte>, n: nat)
    requires Delivers(net, h, n)
    ensures net != [] && |h| <= |Flatten(net[0])| && Completes(net[1..], FirstPart(net, h), n)
  {
    hide Completes, FirstPart, Flatten;
  }

  /** A clean request whose reply comes promptly succeeds, brings its whole range, and leaves nothing. */
  lemma {:induction false} PromptRequest(t: Attempt, file: seq<Byte>, start: seq<Byte>, ls: seq<HeaderLine>)
    requires Made(t) && !t.line.strayed && t.line.left == Header([]) && t.reply.Answered?
    requires t.start <= |file| && |Part(file, t.start, t.end)| <= BUFFER_SIZE
    requires Prompt(t.reply.net, start, ls, Part(file, t.start, t.end), STATUS_MAPS)
    ensures t.ok && Satisfied(t, file) && t.after.left == Header([]) && !t.after.strayed
    ensures t.after.keep == HeaderKeeps(start, ls) == t.after.up
  {
    hide *;
    var body := Part(file, t.start, t.end);
    AwaitNothing(t.reply.net);
    AnsweredParts(t);
    PromptAlone(t.reply.net, start, ls, body, STATUS_MAPS, t.reply.opening);
    MadeParts(t);
    PromptDelivers(t.reply.net, start, ls, body, t.reply.opening);
    PromptKeeps(t.line.keep, t.reply.net, start, ls, body, t.reply.opening);
    CompleteIs(t, file, start, ls);
  }

  lemma {:induction false} PromptDelivers(net: Net, start: seq<Byte>, ls: seq<HeaderLine>, body: seq<Byte>, o: Opening)
    requires Prompt(net, start, ls, body, STATUS_MAPS) && Fetch.Found(Header(net), o)
    ensures Replies(net, start, ls, body, STATUS_MAPS) && Delivers(net, WriteHeader(start, ls), |body|)
  {
    hide Replies, Fetch.Found, FetchAll, Remains, Completes, WriteHeader, Flatten;
    PromptAlone(net, start, ls, body, STATUS_MAPS, o);
    ReplyFetched(net, start, ls, body, STATUS_MAPS, o);
  }

  /** The header of the response that is read says whether the connection is to be kept. */
  lemma {:induction false} HeaderSays(keep: bool, net: Net, start: seq<Byte>, ls: seq<HeaderLine>, body: seq<Byte>,
      o: Opening)
    requires Arrives(net, start, ls, body, STATUS_MAPS) && Fetch.Found(Header(net), o)
    ensures KeepBehind(keep, Header(net), o) == HeaderKeeps(start, ls)
  {
    hide Arrives, Fetch.Found, Noted, HeaderKeeps, FieldsRead;
    ResponseNoted(net, start, ls, body, STATUS_MAPS, o, Notes(keep, false, []));
  }

  lemma {:induction false} PromptKeeps(keep: bool, net: Net, start: seq<Byte>, ls: seq<HeaderLine>, body: seq<Byte>,
      o: Opening)
    requires Prompt(net, start, ls, body, STATUS_MAPS) && Fetch.Found(Header(net), o)
    ensures KeepBehind(keep, Header(net), o) == HeaderKeeps(start, ls)
  {
    assert Arrives(net, start, ls, body, STATUS_MAPS);
    hide *;
    HeaderSays(keep, net, start, ls, body, o);
  }

  lemma CompleteIs(t: Attempt, file: seq<Byte>, start: seq<Byte>, ls: seq<HeaderLine>)
    requires !t.line.strayed && t.line.left == Header([]) && t.reply.Answered?
    requires Replies(t.reply.net, start, ls, Part(file, t.start, t.end), STATUS_MAPS)
    requires Delivers(t.reply.net, WriteHeader(start, ls), |Part(file, t.start, t.end)|)
    ensures Satisfied(t, file)
  {
    hide Replies, Delivers, WriteHeader, Part;
    assert Clean(t, file, start, ls);
  }

  lemma AnsweredParts(t: Attempt)
    requires Made(t) && !t.line.strayed && t.reply.Answered?
    ensures var v := Await(t.line.left, t.reply.net);
      && NetOk(t.reply.net) && Fetch.Found(v, t.reply.opening)
      && (t.ok <==> FetchAll(v, STATUS_MAPS, false, t.reply.opening).status == NX_SUCCESS)
      && t.after.keep == KeepBehind(t.line.keep, v, t.reply.opening)
    ensures !t.after.strayed && t.after.up == (t.ok && (!t.after.left.Header? || t.after.keep))
  {
    hide FetchAll, Remains, Holding, Fetch.Found, NetOk, KeepBehind;
  }

  /** A request that can be built and sent is answered, and the reader stays inside a well-formed header. */
  lemma {:induction false} ReplyAnswers(t: Attempt, start: seq<Byte>, ls: seq<HeaderLine>, body: seq<Byte>)
    requires Made(t) && !t.line.strayed && t.line.up && t.line.left == Header([])
    requires t.exchange.built && t.exchange.sent && Prompt(ReplyOf(t.exchange), start, ls, body, STATUS_MAPS)
    ensures t.reply.Answered? && t.reply.net == ReplyOf(t.exchange)
  {
    var net := ReplyOf(t.exchange);
    assert Arrives(net, start, ls, body, STATUS_MAPS);
    AwaitNothing(net);
    hide Arrives, FetchAll, Remains, Fetch.Found, KeepBehind, Await, ReplyOf;
    NotStrays(net, start, ls, body);
  }

  lemma {:induction false} NotStrays(net: Net, start: seq<Byte>, ls: seq<HeaderLine>, body: seq<Byte>)
    requires Arrives(net, start, ls, body, STATUS_MAPS)
    ensures !Strays(Header(net))
  {
    hide Arrives, ScanFrom, NetBytes, Opens, Reads, ParseLines, Version;
    forall o
      ensures !Overruns(net, STATUS_MAPS, o)
    {
      if Fetch.Found(Header(net), o) {
        StaysInside(net, start, ls, body, STATUS_MAPS, o);
      }
    }
  }

  /**
   An error page never passes for a part of the file: a request that finds nothing left of earlier ones and is answered
   with a status code that does not start with the digit 2 fails, whatever its body, and in whatever packets it comes.
   */
  lemma {:induction false} ErrorReply(t: Attempt, start: seq<Byte>, ls: seq<HeaderLine>, body: seq<Byte>)
    requires Made(t) && !t.line.strayed && t.line.left == Header([]) && t.reply.Answered?
    requires NetBytes(t.reply.net) == WriteHeader(start, ls) + body && ValidHeader(start, ls)
    requires |start| >= 12 && start[9] != 50
    ensures !t.ok && !t.after.up
  {
    hide *;
    var net, o := t.reply.net, t.reply.opening;
    AwaitNothing(net);
    AnsweredParts(t);
    HeaderScans(start, ls, body);
    FoundOpens(net, o);
    if |o.first| >= 12 {
      StatusDecides(net, start, ls, body, STATUS_MAPS, false, o);
    } else {
      ShortFetched(net, o);
    }
  }

  lemma FoundOpens(net: Net, o: Opening)
    requires Fetch.Found(Header(net), o) && ScanFrom(NetBytes(net), 0).Found?
    ensures Opens(net, o)
  {
    hide Opens, ScanFrom, NetBytes;
  }

  lemma ShortFetched(net: Net, o: Opening)
    requires ScanFrom(NetBytes(net), 0).Found? && |o.first| < 12
    ensures FetchAll(Header(net), STATUS_MAPS, false, o).status != NX_SUCCESS
  {
    Refusals(o.first, |o.all|, STATUS_MAPS);
    hide Judge, NetBytes, ScanFrom, FetchPart, FetchChunks;
  }

  /**
   A request that finds an earlier body open, all of which is on its way, gets the bytes of that body, whatever its own
   reply is.
   */
  lemma PendingRequest(t: Attempt)
    requires Made(t) && t.ok && t.reply.Answered? && !t.line.strayed
    requires var v := t.line.left; v.Fixed? && 0 < v.left == |NetBytes(v.net)| < UINT_RANGE
    ensures t.got <= NetBytes(t.line.left.net)
    ensures AllFull(t.line.left.net) && t.line.left.left <= BUFFER_SIZE ==>
      t.got == NetBytes(t.line.left.net) && t.after.left == Header(t.reply.net)
  {
    MadeParts(t);
    var v, net, o := t.line.left, t.reply.net, t.reply.opening;
    FixedBehind(v, net, STATUS_MAPS, o);
    hide *;
    GotIs(t, FetchAll(Await(v, net), STATUS_MAPS, false, o).content);
  }

  // ---------------------------------------------------------------- requests that may be made

  /** A request that is sent and answered. */
  predicate Exchanged(t: Attempt) {
    && t.line.up && !t.line.strayed && !t.after.strayed && |t.line.buffer| == BUFFER_SIZE
    && t.exchange.built && t.exchange.sent && t.reply.Answered? && t.reply.net == ReplyOf(t.exchange)
  }

  /** A request that fetches `content`, with what it leaves. */
  lemma MadeOf(t: Attempt, content: seq<Byte>)
    requires t.ok && Exchanged(t) && |content| <= BUFFER_SIZE && t.got == content
    requires |t.line.buffer| == BUFFER_SIZE && t.after.buffer == Overlay(t.line.buffer, content)
    requires var v, o := Await(t.line.left, t.reply.net), t.reply.opening;
      && Fetch.Found(v, o) && FetchAll(v, STATUS_MAPS, false, o) == Fetched(NX_SUCCESS, content)
      && Remains(v, STATUS_MAPS, false, o) == t.after.left && t.after.keep == KeepBehind(t.line.keep, v, o)
    requires t.after.up == (!t.after.left.Header? || t.after.keep)
    ensures Made(t)
  {
    hide FetchAll, Remains, Fetch.Found, KeepBehind, ReplyOf;
    assert t.after.buffer[..|content|] == content == content[..|content|];
  }

  /** How the client finds a reply. */
  function OpeningFor(net: Net): Opening {
    if net != [] && net[0] != [] then OpeningOf(net) else Opening([], [], [])
  }

  /** The next reply on a connection comes promptly, whether it was asked for by this request or an earlier one. */
  lemma {:induction false} MadePrompt(t: Attempt, net: Net, start: seq<Byte>, ls: seq<HeaderLine>, body: seq<Byte>,
      more: Net)
    requires Prompt(net, start, ls, body, STATUS_MAPS) && HeaderKeeps(start, ls) && NetOk(more) && |body| <= BUFFER_SIZE
    requires Exchanged(t) && |t.line.buffer| == BUFFER_SIZE
    requires Await(t.line.left, t.reply.net) == Header(net + more) && t.reply.opening == OpeningFor(net + more)
    requires t.ok && t.got == body && t.after == Line(Header(more), true, true, false, Overlay(t.line.buffer, body))
    ensures Made(t)
  {
    hide *;
    PromptFound(t.line.keep, net, start, ls, body, more);
    PromptFetched(net, start, ls, body, STATUS_MAPS, more, OpeningFor(net + more));
    MadeOf(t, body);
  }

  lemma {:induction false} PromptFound(keep: bool, net: Net, start: seq<Byte>, ls: seq<HeaderLine>, body: seq<Byte>,
      more: Net)
    requires Prompt(net, start, ls, body, STATUS_MAPS) && NetOk(more)
    ensures Fetch.Found(Header(net + more), OpeningFor(net + more))
    ensures KeepBehind(keep, Header(net + more), OpeningFor(net + more)) == HeaderKeeps(start, ls)
  {
    assert Replies(net, start, ls, body, STATUS_MAPS) && Arrives(net, start, ls, body, STATUS_MAPS);
    hide *;
    ArrivesMore(net, start, ls, body, STATUS_MAPS, more);
    ArrivesParts(net + more, start, ls, body + NetBytes(more), STATUS_MAPS);
    HeaderAccepted(net + more, start, ls, body + NetBytes(more), STATUS_MAPS, OpeningFor(net + more));
    OpeningIs(net + more);
    HeaderSays(keep, net + more, start, ls, body + NetBytes(more), OpeningFor(net + more));
  }

  lemma OpeningIs(net: Net)
    requires net != [] && net[0] != []
    ensures OpeningFor(net) == OpeningOf(net)
  {
  }

  /** A reply whose header arrives alone: the request succeeds without a byte, and the body stays open. */
  lemma {:induction false} MadeAlone(t: Attempt, start: seq<Byte>, ls: seq<HeaderLine>, body: seq<Byte>)
    requires Exchanged(t) && t.reply.Answered? && |t.line.buffer| == BUFFER_SIZE
    requires Replies(t.reply.net, start, ls, body, STATUS_MAPS) && body != []
    requires Flatten(t.reply.net[0]) == WriteHeader(start, ls) && t.reply.opening == OpeningFor(t.reply.net)
    requires t.line.left == Header([]) && t.ok && t.got == []
    requires t.after == Line(Fixed(|body|, t.reply.net[1..]), true, HeaderKeeps(start, ls), false, t.line.buffer)
    ensures Made(t)
  {
    var net, o := t.reply.net, t.reply.opening;
    assert Arrives(net, start, ls, body, STATUS_MAPS) && Overlay(t.line.buffer, []) == t.line.buffer;
    hide *;
    AwaitNothing(net);
    ArrivesParts(net, start, ls, body, STATUS_MAPS);
    HeaderAccepted(net, start, ls, body, STATUS_MAPS, o);
    OpeningIs(net);
    AloneLeft(net, start, ls, body, STATUS_MAPS, o);
    HeaderSays(t.line.keep, net, start, ls, body, o);
    MadeOf(t, []);
  }

  /** A request behind an open body, which is on its way: it gets that body, and its own reply stays. */
  lemma MadePending(t: Attempt)
    requires var v := t.line.left;
      v.Fixed? && 0 < v.left == |NetBytes(v.net)| <= BUFFER_SIZE && AllFull(v.net)
    requires Exchanged(t) && t.reply.Answered? && |t.line.buffer| == BUFFER_SIZE && t.line.keep
    requires t.ok && t.got == NetBytes(t.line.left.net)
    requires t.after == Line(Header(t.reply.net), true, true, false, Overlay(t.line.buffer, t.got))
    ensures Made(t)
  {
    FixedBehind(t.line.left, t.reply.net, STATUS_MAPS, t.reply.opening);
    hide FetchAll, Remains;
    MadeOf(t, t.got);
  }
}
