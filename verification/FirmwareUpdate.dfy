/**
 The ranged download client. A download reads a file block by block over one connection and hands the blocks to a
 callback, which for firmware writes them through a driver. What the connection and the buffer have from earlier
 requests counts where a fetch is cut short.
 */
module FirmwareUpdate {
  import opened Bytes
  import opened Requests
  import Fetch
  import Http = HttpClient
  import Body = ResponseBody
  import Numbers

  type Field = Http.Field

  const NUM_RETRIES: nat := 3

  datatype Status =
    | NX_SUCCESS
    | NX_DOWNLOAD_ABORTED_BY_USER
    | NX_INVALID_PARAMETERS
    | NX_NOT_SUPPORTED
    | Failure(code: nat) // any other code of the network or of the driver

  datatype Handler = NoHandler | UserHandler | OtaHandler

  datatype Event = StatusEvent(status: Status) | FileSizeEvent(size: nat) | DataEvent(offset: nat, data: seq<Byte>)

  /** A call of the event callback, its answer, and what the user says to the event, if asked. */
  datatype Told = Told(event: Event, accepted: bool, vote: bool)

  datatype Command = Initialize | Preprocess(size: nat) | Write(offset: nat, data: seq<Byte>) | Install | Apply

  /** A call of the driver, and the status it left; zero is success. */
  datatype Driven = Driven(command: Command, status: nat)

  /**
   What is not up to the SDK: whether the server can be connected to, what happens to a request, the status that the
   driver leaves, and what the user says to an event, each by the number of times that it was asked for before.
   */
  datatype World = World(connects: nat -> bool, server: nat -> Exchange, driver: nat -> nat, user: nat -> bool)

  class Updater {
    const world: World

    // the state of the download client
    const buffer: array<Byte>
    var fileSize: nat
    var fileBytesReceived: nat
    var eventCb: Handler
    var doResume: bool
    var strayed: bool           // whether a field reader has left its packet on this connection

    // the state of the firmware client
    var aduDriver: bool         // whether a driver is set
    var userDownloadCb: bool    // whether the user wants to see the events
    var adudrStatus: nat        // the status in the last driver request
    var firmwareReady: bool

    // what the callback, the driver and the server were asked
    var events: seq<Told>
    var commands: seq<Driven>
    var connections: seq<bool>
    var exchanges: seq<Exchange>
    ghost var attempts: seq<Attempt>

    constructor (world: World)
      ensures this.world == world && fresh(buffer) && buffer.Length == BUFFER_SIZE
      ensures fileSize == 0 && fileBytesReceived == 0 && eventCb == NoHandler
      ensures !aduDriver && !firmwareReady && events == [] && commands == [] && attempts == []
      ensures connections == [] && exchanges == []
    {
      this.world := world;
      buffer := new Byte[BUFFER_SIZE];
      fileSize, fileBytesReceived, eventCb, doResume, strayed := 0, 0, NoHandler, false, false;
      aduDriver, userDownloadCb, adudrStatus, firmwareReady := false, false, 0, false;
      events, commands, connections, exchanges, attempts := [], [], [], [], [];
    }
  }

  /** Everything that was asked for so far was answered as the world has it. */
  ghost predicate Recorded(u: Updater)
    reads u`events, u`commands, u`connections, u`exchanges
  {
    && (forall i :: 0 <= i < |u.events| ==> u.events[i].vote == u.world.user(i))
    && (forall i :: 0 <= i < |u.commands| ==> u.commands[i].status == u.world.driver(i))
    && (forall i :: 0 <= i < |u.connections| ==> u.connections[i] == u.world.connects(i))
    && (forall i :: 0 <= i < |u.exchanges| ==> u.exchanges[i] == u.world.server(i))
  }

  // ---------------------------------------------------------------- blocks of a file

  /** The end of the block that starts at `o`. */
  function Next(o: nat, size: nat): (e: nat)
    requires o <= size
    ensures o <= e <= size && e <= o + BUFFER_SIZE && (o < size ==> o < e)
  {
    if o + BUFFER_SIZE < size then o + BUFFER_SIZE else size
  }

  /** Whether there is a block at `o`; an empty file has one, too. */
  predicate BlockAt(o: nat, size: nat) {
    o < size || (o == 0 && size == 0)
  }

  /** A data event for the block at `o`. */
  predicate IsBlock(t: Told, o: nat, size: nat) {
    BlockAt(o, size) && t.event.DataEvent? && t.event.offset == o && |t.event.data| == Next(o, size) - o
  }

  /** Data events for block after block between two offsets, all accepted. */
  predicate Steps(ts: seq<Told>, from: nat, to: nat, size: nat) {
    if ts == [] then from == to
    else IsBlock(ts[0], from, size) && ts[0].accepted && Steps(ts[1..], Next(from, size), to, size)
  }

  lemma {:induction false} StepsOrder(ts: seq<Told>, from: nat, to: nat, size: nat)
    requires Steps(ts, from, to, size)
    ensures from <= to && (from <= size ==> to <= size)
    decreases |ts|
  {
    if ts != [] {
      StepsOrder(ts[1..], Next(from, size), to, size);
    }
  }

  /** One more block. */
  lemma {:induction false} Onward(ts: seq<Told>, t: Told, from: nat, to: nat, size: nat)
    requires Steps(ts, from, to, size) && IsBlock(t, to, size) && t.accepted
    ensures Steps(ts + [t], from, Next(to, size), size)
    decreases |ts|
  {
    if ts == [] {
      assert [t][1..] == [];
      assert ts + [t] == [t];
    } else {
      assert (ts + [t])[1..] == ts[1..] + [t];
      Onward(ts[1..], t, Next(from, size), to, size);
    }
  }

  /** The bytes of the data events that were accepted, one after the other. */
  function AcceptedBytes(ts: seq<Told>): seq<Byte> {
    if ts == [] then []
    else (if ts[0].event.DataEvent? && ts[0].accepted then ts[0].event.data else []) + AcceptedBytes(ts[1..])
  }

  /** Whether an event carries the file's bytes. */
  predicate Genuine(t: Told, file: seq<Byte>) {
    t.event.DataEvent? ==>
      var end := t.event.offset + |t.event.data|;
      end <= |file| && t.event.data == file[t.event.offset..end]
  }

  predicate AllGenuine(ts: seq<Told>, file: seq<Byte>) {
    forall i :: 0 <= i < |ts| ==> Genuine(ts[i], file)
  }

  /**
   Every data event starts where the data before it ends, holds at most 4096 bytes, none only if the file is empty, and
   the last one ends at `to`.
   */
  predicate Contiguous(ts: seq<Told>, from: nat, to: nat, size: nat) {
    if ts == [] then from == to
    else
      && ts[0].event.DataEvent? && ts[0].accepted && ts[0].event.offset == from
      && (size > 0 ==> 1 <= |ts[0].event.data|) && |ts[0].event.data| <= BUFFER_SIZE
      && Contiguous(ts[1..], from + |ts[0].event.data|, to, size)
  }

  /** The blocks are contiguous, and their data is as long as the part of the file that they stand for. */
  lemma {:induction false} BlocksTile(ts: seq<Told>, from: nat, to: nat, size: nat)
    requires Steps(ts, from, to, size)
    ensures from <= to && Contiguous(ts, from, to, size) && |AcceptedBytes(ts)| == to - from
    ensures from <= size ==> to <= size
    decreases |ts|
  {
    StepsOrder(ts, from, to, size);
    if ts != [] {
      BlocksTile(ts[1..], Next(from, size), to, size);
    }
  }

  /** The data of blocks is a part of a file exactly if every single block is. */
  lemma {:induction false} BlocksCarry(ts: seq<Told>, from: nat, to: nat, file: seq<Byte>)
    requires Steps(ts, from, to, |file|) && from <= |file|
    ensures from <= to <= |file| && (AcceptedBytes(ts) == file[from..to] <==> AllGenuine(ts, file))
    decreases |ts|
  {
    BlocksTile(ts, from, to, |file|);
    if ts != [] {
      var e := Next(from, |file|);
      BlocksCarry(ts[1..], e, to, file);
      BlocksTile(ts[1..], e, to, |file|);
      SameParts(ts[0].event.data, AcceptedBytes(ts[1..]), file[from..e], file[e..to]);
      assert file[from..to] == file[from..e] + file[e..to];
      GenuineFirst(ts, file);
    }
  }

  lemma GenuineFirst(ts: seq<Told>, file: seq<Byte>)
    requires ts != []
    ensures AllGenuine(ts, file) <==> Genuine(ts[0], file) && AllGenuine(ts[1..], file)
  {
    hide Genuine;
    if Genuine(ts[0], file) && AllGenuine(ts[1..], file) {
      assert forall i :: 0 < i < |ts| ==> ts[i] == ts[1..][i - 1];
    }
    if AllGenuine(ts, file) {
      assert forall i :: 0 <= i < |ts| - 1 ==> ts[1..][i] == ts[i + 1];
    }
  }

  /** The number of blocks is the remaining size over 4096, rounded up. */
  lemma {:induction false} BlockCount(ts: seq<Told>, from: nat, size: nat)
    requires Steps(ts, from, size, size) && from <= size && size > 0
    ensures |ts| == (size - from + BUFFER_SIZE - 1) / BUFFER_SIZE
    decreases |ts|
  {
    if ts != [] {
      BlockCount(ts[1..], Next(from, size), size);
    }
  }

  lemma AssocTold(a: seq<Told>, b: seq<Told>, c: seq<Told>)
    ensures a + b + c == a + (b + c)
  {
  }

  lemma AssocDriven(a: seq<Driven>, b: seq<Driven>, c: seq<Driven>)
    ensures a + b + c == a + (b + c)
  {
  }

  lemma AssocAttempt(a: seq<Attempt>, b: seq<Attempt>, c: seq<Attempt>)
    ensures a + b + c == a + (b + c)
  {
  }

  // ---------------------------------------------------------------- the callback of the firmware client

  /** Calls the driver. */
  method Drive(u: Updater, command: Command)
    requires Recorded(u)
    modifies u`commands, u`adudrStatus
    ensures Recorded(u) && u.commands == old(u.commands) + [Driven(command, u.adudrStatus)]
  {
    u.adudrStatus := u.world.driver(|u.commands|);
    u.commands := u.commands + [Driven(command, u.adudrStatus)];
  }

  /** What an event makes the firmware client's callback ask of the driver. */
  function Drives(cb: Handler, event: Event, status: nat): seq<Driven> {
    if cb != OtaHandler then []
    else match event
      case StatusEvent(_) => []
      case FileSizeEvent(size) => [Driven(Preprocess(size), status)]
      case DataEvent(offset, data) => [Driven(Write(offset, data), status)]
  }

  /**
   The firmware client's callback: the driver first, then the user. An event is accepted if and only if the driver did
   what it was asked for, and the user, if there is one to ask, accepts it; the driver is not asked about a status.
   */
  method OtaFwDownloadHandler(u: Updater, event: Event) returns (ret: bool)
    requires Recorded(u)
    modifies u`commands, u`adudrStatus
    ensures Recorded(u) && u.commands == old(u.commands) + Drives(OtaHandler, event, u.adudrStatus)
    ensures ret <==> (event.StatusEvent? || u.adudrStatus == 0) && (u.userDownloadCb ==> u.world.user(|u.events|))
    ensures event.StatusEvent? ==> u.adudrStatus == old(u.adudrStatus)
  {
    assert u.commands + [] == u.commands;
    hide Recorded;
    ret := true;
    match event {
      case StatusEvent(_) =>
      case FileSizeEvent(size) =>
        Drive(u, Preprocess(size));
        if u.adudrStatus != 0 {
          return false;
        }
      case DataEvent(offset, data) =>
        Drive(u, Write(offset, data));
        if u.adudrStatus != 0 {
          return false;
        }
    }
    if u.userDownloadCb {
      ret := u.world.user(|u.events|);
    }
  }

  /** Whether a callback accepts an event; `user`: behind the firmware client there is a user to ask. */
  predicate Accepts(cb: Handler, user: bool, event: Event, status: nat, vote: bool) {
    match cb
    case NoHandler => false
    case UserHandler => vote
    case OtaHandler => (event.StatusEvent? || status == 0) && (user ==> vote)
  }

  /** Calls an event callback. */
  method CallBack(u: Updater, cb: Handler, event: Event) returns (ok: bool)
    requires cb != NoHandler && Recorded(u)
    modifies u`events, u`commands, u`adudrStatus
    ensures Recorded(u) && u.events == old(u.events) + [Told(event, ok, u.world.user(|old(u.events)|))]
    ensures u.commands == old(u.commands) + Drives(cb, event, u.adudrStatus)
    ensures ok == Accepts(cb, u.userDownloadCb, event, u.adudrStatus, u.world.user(|old(u.events)|))
    ensures event.StatusEvent? || cb == UserHandler ==> u.adudrStatus == old(u.adudrStatus)
  {
    assert u.commands + [] == u.commands;
    var vote := u.world.user(|u.events|);
    if cb == UserHandler {
      ok := vote;
    } else {
      ok := OtaFwDownloadHandler(u, event);
    }
    u.events := u.events + [Told(event, ok, vote)];
  }

  /** Whether an event makes the firmware client's callback ask for a command. */
  predicate Asks(event: Event, command: Command) {
    match event
    case StatusEvent(_) => false
    case FileSizeEvent(size) => command == Preprocess(size)
    case DataEvent(offset, data) => command == Write(offset, data)
  }

  /**
   One command for every event, in order; an event is accepted if and only if the driver did what it was asked for, and
   the user, if there is one to ask, accepts it.
   */
  predicate Answers(user: bool, ts: seq<Told>, cs: seq<Driven>) {
    && |cs| == |ts|
    && forall i :: 0 <= i < |ts| ==>
         Asks(ts[i].event, cs[i].command) && (ts[i].accepted <==> cs[i].status == 0 && (user ==> ts[i].vote))
  }

  predicate AnswersFor(cb: Handler, user: bool, ts: seq<Told>, cs: seq<Driven>) {
    if cb == OtaHandler then Answers(user, ts, cs)
    else cs == [] && forall i :: 0 <= i < |ts| ==> ts[i].accepted == ts[i].vote
  }

  lemma AnswersOne(cb: Handler, user: bool, event: Event, ok: bool, vote: bool, status: nat)
    requires !event.StatusEvent? && cb != NoHandler && ok == Accepts(cb, user, event, status, vote)
    ensures AnswersFor(cb, user, [Told(event, ok, vote)], Drives(cb, event, status))
  {
  }

  lemma AnswersMore(cb: Handler, user: bool, ts: seq<Told>, cs: seq<Driven>, ts': seq<Told>, cs': seq<Driven>)
    requires AnswersFor(cb, user, ts, cs) && AnswersFor(cb, user, ts', cs')
    ensures AnswersFor(cb, user, ts + ts', cs + cs')
  {
    hide Asks;
  }

  // ---------------------------------------------------------------- one range

  /** How often a block was asked for. */
  function CountAt(a: seq<Attempt>, start: nat): nat {
    if a == [] then 0 else (if a[0].start == start then 1 else 0) + CountAt(a[1..], start)
  }

  lemma {:induction false} CountAppend(a: seq<Attempt>, b: seq<Attempt>, start: nat)
    ensures CountAt(a + b, start) == CountAt(a, start) + CountAt(b, start)
  {
    if a == [] {
      assert a + b == b;
    } else {
      assert (a + b)[1..] == a[1..] + b;
      CountAppend(a[1..], b, start);
    }
  }

  /** The requests that were taken for a success. */
  function Oks(a: seq<Attempt>): seq<Attempt> {
    if a == [] then [] else (if a[0].ok then [a[0]] else []) + Oks(a[1..])
  }

  lemma {:induction false} OksAppend(a: seq<Attempt>, b: seq<Attempt>)
    ensures Oks(a + b) == Oks(a) + Oks(b)
  {
    if a == [] {
      assert a + b == b;
    } else {
      assert (a + b)[1..] == a[1..] + b;
      OksAppend(a[1..], b);
      AssocAttempt(if a[0].ok then [a[0]] else [], Oks(a[1..]), Oks(b));
    }
  }

  /**
   A request for a block of a file names exactly the block's bytes, the last one included; for an empty file the last
   one wraps around.
   */
  predicate InRange(t: Attempt, size: nat) {
    RangeIs(t.start, t.end, size)
  }

  predicate RangeIs(start: nat, end: nat, size: nat) {
    BlockAt(start, size) && if size == 0 then end == UINT_RANGE - 1 else end + 1 == Next(start, size)
  }

  predicate AllInRange(a: seq<Attempt>, size: nat) {
    forall i :: 0 <= i < |a| ==> InRange(a[i], size)
  }

  lemma InRangeMore(a: seq<Attempt>, b: seq<Attempt>, size: nat)
    requires AllInRange(a, size) && AllInRange(b, size)
    ensures AllInRange(a + b, size)
  {
    hide InRange;
  }

  /** Requests for block after block: each is for the block they have come to, and a success goes on to the next. */
  predicate Walks(a: seq<Attempt>, from: nat, to: nat, size: nat)
    decreases |a|
  {
    if a == [] then from == to
    else
      && a[0].start == from && InRange(a[0], size)
      && Walks(a[1..], if a[0].ok then Next(from, size) else from, to, size)
  }

  lemma {:induction false} WalksJoin(a: seq<Attempt>, b: seq<Attempt>, from: nat, mid: nat, to: nat, size: nat)
    requires Walks(a, from, mid, size) && Walks(b, mid, to, size)
    ensures Walks(a + b, from, to, size)
    decreases |a|
  {
    if a == [] {
      assert a + b == b;
    } else {
      assert (a + b)[1..] == a[1..] + b;
      hide RangeIs;
      WalksJoin(a[1..], b, if a[0].ok then Next(from, size) else from, mid, to, size);
    }
  }

  lemma {:induction false} WalksInRange(a: seq<Attempt>, from: nat, to: nat, size: nat)
    requires Walks(a, from, to, size)
    ensures AllInRange(a, size)
    decreases |a|
  {
    if a != [] {
      WalksInRange(a[1..], if a[0].ok then Next(from, size) else from, to, size);
      assert forall i :: 0 < i < |a| ==> a[i] == a[1..][i - 1];
    }
  }

  /** Up to three requests for one block; only the last one may succeed. */
  predicate Tries(a: seq<Attempt>, start: nat, size: nat, ok: bool) {
    && 1 <= |a| <= NUM_RETRIES && (!ok ==> |a| == NUM_RETRIES) && AllInRange(a, size)
    && forall i :: 0 <= i < |a| ==> a[i].start == start && (a[i].ok <==> ok && i == |a| - 1)
  }

  /** Such requests stay at their block, and go on to the next if the last one succeeds. */
  lemma {:induction false} TriesWalk(a: seq<Attempt>, start: nat, size: nat, ok: bool)
    requires AllInRange(a, size) && start <= size
    requires forall i :: 0 <= i < |a| ==> a[i].start == start && (a[i].ok <==> ok && i == |a| - 1)
    ensures Walks(a, start, if ok && a != [] then Next(start, size) else start, size)
    decreases |a|
  {
    hide RangeIs;
    if |a| > 1 {
      TriesWalk(a[1..], start, size, ok);
    } else if |a| == 1 {
      assert a[1..] == [] && InRange(a[0], size);
    }
  }

  /** The last three requests were all for one block, and all failed. */
  predicate GaveUp(a: seq<Attempt>) {
    |a| >= 3 && forall i :: |a| - 3 <= i < |a| ==> a[i].start == a[|a| - 1].start && !a[i].ok
  }

  /** How the requests of a run end that stops at `to`. */
  predicate Closes(ts: seq<Told>, a: seq<Attempt>, to: nat, status: Status) {
    match status
    case Failure(_) => if ts == [] then a == [] else GaveUp(a) && a[|a| - 1].start == to
    case _ => if |ts| <= 1 then a == [] else a != [] && a[|a| - 1].ok
  }

  lemma {:induction false} OksOfTries(a: seq<Attempt>, ok: bool)
    requires a != [] && forall i :: 0 <= i < |a| ==> (a[i].ok <==> ok && i == |a| - 1)
    ensures Oks(a) == if ok then [a[|a| - 1]] else []
  {
    if |a| > 1 {
      OksOfTries(a[1..], ok);
    } else {
      assert Oks(a[1..]) == [];
    }
  }

  lemma {:induction false} TriesCount(a: seq<Attempt>, start: nat, o: nat)
    requires forall i :: 0 <= i < |a| ==> a[i].start == start
    ensures CountAt(a, o) == if o == start then |a| else 0
  {
    if a != [] {
      TriesCount(a[1..], start, o);
    }
  }

  /** Every block was asked for at most three times, and only blocks before `limit` were. */
  ghost predicate Bounded(a: seq<Attempt>, limit: nat) {
    (forall o: nat :: CountAt(a, o) <= NUM_RETRIES) && (forall o: nat :: o >= limit ==> CountAt(a, o) == 0)
  }

  lemma {:induction false} BoundedMore(a: seq<Attempt>, b: seq<Attempt>, start: nat, size: nat, ok: bool, limit: nat)
    requires Bounded(a, start) && Tries(b, start, size, ok)
    ensures forall o: nat :: CountAt(a + b, o) <= NUM_RETRIES
    ensures start < limit ==> Bounded(a + b, limit)
  {
    forall o: nat
      ensures CountAt(a + b, o) <= NUM_RETRIES && (o > start ==> CountAt(a + b, o) == 0)
    {
      CountAppend(a, b, o);
      TriesCount(b, start, o);
    }
  }

  /** Where the requests of a run stand. */
  ghost function LineAt(u: Updater, c: Http.Client): Line
    reads u`strayed, u.buffer, c, c.held
  {
    LineOf(c, u.strayed, u.buffer)
  }

  /** What happened to requests. */
  function ExchangesOf(a: seq<Attempt>): (es: seq<Exchange>)
    ensures |es| == |a| && forall i :: 0 <= i < |a| ==> es[i] == a[i].exchange
  {
    seq(|a|, i requires 0 <= i < |a| => a[i].exchange)
  }

  lemma ExchangesMore(es: seq<Exchange>, a: seq<Attempt>, b: seq<Attempt>)
    ensures es + ExchangesOf(a) + ExchangesOf(b) == es + ExchangesOf(a + b)
  {
    assert ExchangesOf(a + b) == ExchangesOf(a) + ExchangesOf(b);
  }

  /** Makes the next request, of which the world says what happens to it. */
  method NextRequest(u: Updater, c: Http.Client, state: nat)
    returns (ok: bool, ghost got: seq<Byte>, ghost e: Exchange, ghost reply: Reply)
    requires u.buffer.Length == BUFFER_SIZE && Usable(c, u.strayed) && Recorded(u)
    requires state == Body.STATE_GET || state == Body.STATE_HEAD
    modifies u`exchanges, u`strayed, u.buffer, c
    ensures Usable(c, u.strayed) && Recorded(u) && u.exchanges == old(u.exchanges) + [e]
    ensures Asked(state == Body.STATE_HEAD, old(LineAt(u, c)), e, ok, reply, LineAt(u, c))
    ensures ok && state == Body.STATE_GET ==> Fills(old(LineAt(u, c)), got, reply, LineAt(u, c))
    ensures Informed(old(Body.NotesOf(c)), Body.NotesOf(c), old(LineAt(u, c)), reply)
  {
    hide Asked, Fills, Usable, Informed;
    var exchange := u.world.server(|u.exchanges|);
    u.exchanges, e := u.exchanges + [exchange], exchange;
    var strayed;
    ok, strayed, got, reply := MakeRequest(c, state, u.buffer, u.strayed, exchange);
    u.strayed := strayed;
  }

  /** Requests a range. */
  method GetBytesInRange(u: Updater, c: Http.Client, start: nat, end: nat)
    returns (status: Status, ghost t: Attempt)
    requires u.buffer.Length == BUFFER_SIZE && Usable(c, u.strayed) && Recorded(u)
    modifies u`attempts, u`exchanges, u`strayed, u.buffer, c
    ensures Usable(c, u.strayed) && Recorded(u)
    ensures u.attempts == old(u.attempts) + [t] && u.exchanges == old(u.exchanges) + [t.exchange]
    ensures t.start == start && t.end == end && (t.ok <==> status == NX_SUCCESS)
    ensures Made(t) && t.line == old(LineAt(u, c)) && t.after == LineAt(u, c)
    ensures status == NX_SUCCESS || status.Failure?
  {
    hide Asked, Fills, Usable, Recorded;
    ghost var line := LineAt(u, c);
    ghost var got, e, reply;
    var ok;
    ok, got, e, reply := NextRequest(u, c, Body.STATE_GET);
    if ok {
      status := NX_SUCCESS;
    } else {
      var code: nat := *;
      status := Failure(code);
    }
    t := Attempt(start, end, ok, got, line, e, reply, LineAt(u, c));
    u.attempts := u.attempts + [t];
  }

  /** A block carries the file's bytes exactly if it is whole. */
  lemma GenuineBlock(t: Told, a: Attempt, file: seq<Byte>)
    requires Made(a) && a.ok && t.event.DataEvent? && t.event.offset == a.start && Carries(a, t.event.data)
    requires a.start + |t.event.data| <= |file|
    ensures Genuine(t, file) <==> Whole(a, file, |t.event.data|)
  {
    hide *;
    MadeBuffer(a);
    CarriedFront(a, t.event.data);
    WholeData(a, file, |t.event.data|);
    GenuineIs(t, file);
  }

  lemma CarriedFront(a: Attempt, data: seq<Byte>)
    requires Carries(a, data)
    ensures |data| <= |a.after.buffer| && data == a.after.buffer[..|data|]
  {
  }

  lemma GenuineIs(t: Told, file: seq<Byte>)
    requires t.event.DataEvent? && t.event.offset + |t.event.data| <= |file|
    ensures Genuine(t, file) <==> t.event.data == file[t.event.offset..t.event.offset + |t.event.data|]
  {
  }

  /** What getting one block may come to. */
  ghost predicate BlockDone(cb: Handler, user: bool, size: nat, start: nat, status: Status, driverStatus: nat,
      ts: seq<Told>, cs: seq<Driven>, a: seq<Attempt>)
    requires start <= size
  {
    && (status == NX_SUCCESS || status == NX_DOWNLOAD_ABORTED_BY_USER || status.Failure?)
    && Tries(a, start, size, !status.Failure?)
    && AnswersFor(cb, user, ts, cs) && BlockTold(ts, start, size, status)
    && (!status.Failure? ==> Carries(a[|a| - 1], ts[0].event.data))
    && (status == NX_SUCCESS && cb == OtaHandler ==> driverStatus == 0)
  }

  /** A block that arrived is told of once. */
  predicate BlockTold(ts: seq<Told>, o: nat, size: nat, status: Status) {
    if status.Failure? then ts == []
    else |ts| == 1 && IsBlock(ts[0], o, size) && (ts[0].accepted <==> status == NX_SUCCESS)
  }

  lemma AnswersNone(cb: Handler, user: bool)
    ensures AnswersFor(cb, user, [], [])
  {
  }

  /** Tells the callback of a block that is in the buffer. */
  method TellBlock(u: Updater, ghost size: nat, start: nat, n: nat, ghost t: Attempt)
    returns (status: Status, ghost ts: seq<Told>, ghost cs: seq<Driven>)
    requires u.eventCb != NoHandler && u.buffer.Length == BUFFER_SIZE && t.after.buffer == u.buffer[..] && Recorded(u)
    requires BlockAt(start, size) && start + n == Next(start, size)
    modifies u`events, u`commands, u`adudrStatus
    ensures Recorded(u) && u.events == old(u.events) + ts && u.commands == old(u.commands) + cs
    ensures status == NX_SUCCESS || status == NX_DOWNLOAD_ABORTED_BY_USER
    ensures AnswersFor(u.eventCb, u.userDownloadCb, ts, cs) && BlockTold(ts, start, size, status)
    ensures Carries(t, ts[0].event.data)
    ensures u.eventCb == OtaHandler && status == NX_SUCCESS ==> u.adudrStatus == 0
  {
    hide AnswersFor, Drives, Recorded;
    ghost var event, vote := DataEvent(start, u.buffer[..n]), u.world.user(|u.events|);
    var ok := CallBack(u, u.eventCb, DataEvent(start, u.buffer[..n]));
    AnswersOne(u.eventCb, u.userDownloadCb, event, ok, vote, u.adudrStatus);
    status := if ok then NX_SUCCESS else NX_DOWNLOAD_ABORTED_BY_USER;
    ts, cs := [Told(event, ok, vote)], Drives(u.eventCb, event, u.adudrStatus);
  }

  /** What the callback, the driver and the server were asked. */
  datatype Trace = Trace(told: seq<Told>, driven: seq<Driven>, attempts: seq<Attempt>, exchanges: seq<Exchange>)

  /** What an updater was asked since `was`: `t`. */
  ghost predicate AskedSince(u: Updater, was: Trace, t: Trace)
    reads u`events, u`commands, u`attempts, u`exchanges
  {
    && u.events == was.told + t.told && u.commands == was.driven + t.driven && u.attempts == was.attempts + t.attempts
    && u.exchanges == was.exchanges + t.exchanges && t.exchanges == ExchangesOf(t.attempts)
  }

  /** So far every request for a block has failed since `was`, when the requests stood at `line`. */
  ghost predicate Trying(u: Updater, c: Http.Client, size: nat, start: nat, was: Trace, line: Line, a: seq<Attempt>)
    reads u, u.buffer, c, c.held
  {
    && Recorded(u) && AskedSince(u, was, Trace([], [], a, ExchangesOf(a)))
    && AllInRange(a, size) && (forall i :: 0 <= i < |a| ==> a[i].start == start && !a[i].ok)
    && Usable(c, u.strayed) && Talk(line, a) && LineAfter(line, a) == LineAt(u, c)
  }

  /** Getting a block is over: what was told, driven and asked for since `was`. */
  ghost predicate BlockOver(u: Updater, c: Http.Client, size: nat, start: nat, status: Status, was: Trace,
      line: Line, ts: seq<Told>, cs: seq<Driven>, a: seq<Attempt>)
    requires start <= size
    reads u, u.buffer, c, c.held
  {
    && Recorded(u) && AskedSince(u, was, Trace(ts, cs, a, ExchangesOf(a)))
    && BlockDone(u.eventCb, u.userDownloadCb, size, start, status, u.adudrStatus, ts, cs, a)
    && Usable(c, u.strayed) && Talk(line, a) && LineAfter(line, a) == LineAt(u, c)
  }

  /** Asks for a block once more. */
  method TryBlock(u: Updater, c: Http.Client, ghost size: nat, start: nat, end: nat, ghost was: Trace,
      ghost line: Line, ghost a: seq<Attempt>)
    returns (status: Status, ghost t: Attempt)
    requires u.buffer.Length == BUFFER_SIZE && RangeIs(start, end, size)
    requires Trying(u, c, size, start, was, line, a)
    modifies u`attempts, u`exchanges, u`strayed, u.buffer, c
    ensures status == NX_SUCCESS || status.Failure?
    ensures status.Failure? ==> Trying(u, c, size, start, was, line, a + [t])
    ensures status == NX_SUCCESS ==>
      Arrived(u, c, size, start, was, line, a, t) && t.after.buffer == u.buffer[..]
  {
    hide *;
    TryingIs(u, c, size, start, was, line, a);
    status, t := GetBytesInRange(u, c, start, end);
    TalkMore(line, a, t);
    OneExchange(was.exchanges, a, t);
    AssocAttempt(was.attempts, a, [t]);
    TriedAgain(u, c, size, start, end, was, line, a, t);
    AfterIs(u, c, t);
  }

  /** The last request for a block has succeeded; its data is in the buffer. */
  ghost predicate Arrived(u: Updater, c: Http.Client, size: nat, start: nat, was: Trace, line: Line, a: seq<Attempt>,
      t: Attempt)
    reads u, u.buffer, c, c.held
  {
    && Recorded(u) && AskedSince(u, was, Trace([], [], a + [t], ExchangesOf(a + [t])))
    && AllInRange(a + [t], size) && t.start == start && t.ok
    && (forall i :: 0 <= i < |a| ==> a[i].start == start && !a[i].ok)
    && Usable(c, u.strayed) && Talk(line, a + [t]) && LineAfter(line, a + [t]) == LineAt(u, c)
  }

  lemma TryingIs(u: Updater, c: Http.Client, size: nat, start: nat, was: Trace, line: Line, a: seq<Attempt>)
    requires Trying(u, c, size, start, was, line, a)
    ensures Recorded(u) && Usable(c, u.strayed) && Talk(line, a) && LineAfter(line, a) == LineAt(u, c)
    ensures u.events == was.told + [] && u.commands == was.driven + []
    ensures u.attempts == was.attempts + a && u.exchanges == was.exchanges + ExchangesOf(a)
    ensures AllInRange(a, size) && forall i :: 0 <= i < |a| ==> a[i].start == start && !a[i].ok
  {
    hide Recorded, Usable, Talk, LineAt, ExchangesOf, AllInRange;
  }

  lemma TriedAgain(u: Updater, c: Http.Client, size: nat, start: nat, end: nat, was: Trace, line: Line,
      a: seq<Attempt>, t: Attempt)
    requires Recorded(u) && u.events == was.told + [] && u.commands == was.driven + []
    requires u.attempts == was.attempts + (a + [t]) && u.exchanges == was.exchanges + ExchangesOf(a + [t])
    requires AllInRange(a, size) && forall i :: 0 <= i < |a| ==> a[i].start == start && !a[i].ok
    requires t.start == start && t.end == end && RangeIs(start, end, size)
    requires Usable(c, u.strayed) && Talk(line, a + [t]) && LineAfter(line, a + [t]) == LineAt(u, c)
    ensures if t.ok then Arrived(u, c, size, start, was, line, a, t) else Trying(u, c, size, start, was, line, a + [t])
  {
    assert AllInRange([t], size);
    InRangeMore(a, [t], size);
    hide Recorded, Usable, Talk, LineAt, ExchangesOf, AllInRange, RangeIs;
  }

  /** Tells the callback of a block that has arrived. */
  method TakeBlock(u: Updater, c: Http.Client, ghost size: nat, start: nat, n: nat, ghost was: Trace,
      ghost line: Line, ghost a: seq<Attempt>, ghost t: Attempt)
    returns (status: Status, ghost ts: seq<Told>, ghost cs: seq<Driven>)
    requires u.eventCb != NoHandler && u.buffer.Length == BUFFER_SIZE && t.after.buffer == u.buffer[..]
    requires BlockAt(start, size) && start + n == Next(start, size) && |a| < NUM_RETRIES
    requires Arrived(u, c, size, start, was, line, a, t)
    modifies u`events, u`commands, u`adudrStatus
    ensures BlockOver(u, c, size, start, status, was, line, ts, cs, a + [t])
  {
    hide *;
    ArrivedIs(u, c, size, start, was, line, a, t);
    status, ts, cs := TellBlock(u, size, start, n, t);
    BlockTaken(u, c, size, start, status, was, line, ts, cs, a, t);
  }

  /** Gets one block, trying up to three times, and tells the callback about it. */
  method GetBlock(u: Updater, c: Http.Client, ghost size: nat, start: nat, n: nat)
    returns (status: Status, ghost ts: seq<Told>, ghost cs: seq<Driven>, ghost a: seq<Attempt>)
    requires u.eventCb != NoHandler && u.buffer.Length == BUFFER_SIZE && Usable(c, u.strayed) && Recorded(u)
    requires BlockAt(start, size) && start + n == Next(start, size)
    modifies u`events, u`commands, u`adudrStatus, u`attempts, u`exchanges, u`strayed, u.buffer, c
    ensures BlockOver(u, c, size, start, status, old(TraceOf(u)), old(LineAt(u, c)), ts, cs, a)
  {
    var end := if start + n == 0 then UINT_RANGE - 1 else start + n - 1;
    assert RangeIs(start, end, size);
    var i := NUM_RETRIES;
    ghost var line, was := LineAt(u, c), TraceOf(u);
    ts, cs, a := [], [], [];
    status := Failure(0);
    NotTried(u, c, size, start);
    hide *;
    while i > 0
      invariant 0 <= i <= NUM_RETRIES && |a| == NUM_RETRIES - i && status.Failure?
      invariant Trying(u, c, size, start, was, line, a)
    {
      ghost var t;
      status, t := TryBlock(u, c, size, start, end, was, line, a);
      if status == NX_SUCCESS {
        status, ts, cs := TakeBlock(u, c, size, start, n, was, line, a, t);
        a := a + [t];
        return;
      }
      a, i := a + [t], i - 1;
    }
    BlockGivenUp(u, c, size, start, status, was, line, a);
  }

  ghost function TraceOf(u: Updater): Trace
    reads u`events, u`commands, u`attempts, u`exchanges
  {
    Trace(u.events, u.commands, u.attempts, u.exchanges)
  }

  lemma NotTried(u: Updater, c: Http.Client, size: nat, start: nat)
    requires Usable(c, u.strayed) && Recorded(u)
    ensures Trying(u, c, size, start, TraceOf(u), LineAt(u, c), [])
  {
    NoExchange(u.exchanges);
    assert u.events + [] == u.events && u.commands + [] == u.commands && u.attempts + [] == u.attempts;
    hide Usable, Recorded, LineAt;
  }

  lemma ArrivedIs(u: Updater, c: Http.Client, size: nat, start: nat, was: Trace, line: Line, a: seq<Attempt>,
      t: Attempt)
    requires Arrived(u, c, size, start, was, line, a, t)
    ensures Recorded(u) && Usable(c, u.strayed) && Talk(line, a + [t]) && LineAfter(line, a + [t]) == LineAt(u, c)
    ensures AllInRange(a + [t], size) && t.start == start && t.ok
    ensures forall i :: 0 <= i < |a| ==> a[i].start == start && !a[i].ok
    ensures u.events == was.told && u.commands == was.driven && u.attempts == was.attempts + (a + [t])
    ensures u.exchanges == was.exchanges + ExchangesOf(a + [t])
  {
    hide Recorded, Usable, Talk, LineAt, ExchangesOf, AllInRange;
  }

  lemma BlockTaken(u: Updater, c: Http.Client, size: nat, start: nat, status: Status, was: Trace, line: Line,
      ts: seq<Told>, cs: seq<Driven>, a: seq<Attempt>, t: Attempt)
    requires Recorded(u) && u.events == was.told + ts && u.commands == was.driven + cs
    requires u.attempts == was.attempts + (a + [t]) && u.exchanges == was.exchanges + ExchangesOf(a + [t])
    requires AllInRange(a + [t], size) && t.start == start && t.ok && |a| < NUM_RETRIES && start <= size
    requires forall i :: 0 <= i < |a| ==> a[i].start == start && !a[i].ok
    requires Usable(c, u.strayed) && Talk(line, a + [t]) && LineAfter(line, a + [t]) == LineAt(u, c)
    requires status == NX_SUCCESS || status == NX_DOWNLOAD_ABORTED_BY_USER
    requires AnswersFor(u.eventCb, u.userDownloadCb, ts, cs) && BlockTold(ts, start, size, status)
    requires Carries(t, ts[0].event.data) && (u.eventCb == OtaHandler && status == NX_SUCCESS ==> u.adudrStatus == 0)
    ensures BlockOver(u, c, size, start, status, was, line, ts, cs, a + [t])
  {
    hide Recorded, Usable, Talk, LineAt, ExchangesOf, AllInRange, AnswersFor, BlockTold, Carries, LineAfter;
  }

  lemma BlockGivenUp(u: Updater, c: Http.Client, size: nat, start: nat, status: Status, was: Trace, line: Line,
      a: seq<Attempt>)
    requires Trying(u, c, size, start, was, line, a) && |a| == NUM_RETRIES && status.Failure? && start <= size
    ensures BlockOver(u, c, size, start, status, was, line, [], [], a)
  {
    NothingYet(u.eventCb, u.userDownloadCb, start, size);
    hide Recorded, Usable, Talk, LineAt, ExchangesOf, AllInRange, AnswersFor, LineAfter;
  }

  lemma NoExchange(es: seq<Exchange>)
    ensures es + ExchangesOf([]) == es
  {
  }

  lemma OneExchange(es: seq<Exchange>, a: seq<Attempt>, t: Attempt)
    ensures es + ExchangesOf(a) + [t.exchange] == es + ExchangesOf(a + [t])
  {
    assert ExchangesOf([t]) == [t.exchange];
    ExchangesMore(es, a, [t]);
  }

  lemma AfterIs(u: Updater, c: Http.Client, t: Attempt)
    requires t.after == LineAt(u, c)
    ensures t.after.buffer == u.buffer[..]
  {
  }

  lemma NothingYet(cb: Handler, user: bool, o: nat, size: nat)
    ensures AnswersFor(cb, user, [], []) && forall code :: BlockTold([], o, size, Failure(code))
  {
  }

  // ---------------------------------------------------------------- one run

  /** What a run tells the callback: the size, the blocks up to `to`, and at most one block that is rejected. */
  ghost predicate RunEvents(ts: seq<Told>, size: nat, from: nat, to: nat, status: Status) {
    match status
    case NX_SUCCESS =>
      from <= size == to && Sized(ts, size) && |ts| > 1 && Steps(ts[1..], from, to, size) && (size == 0 ==> |ts| == 2)
    case NX_DOWNLOAD_ABORTED_BY_USER =>
      || (from == to && |ts| == 1 && ts[0].event == FileSizeEvent(size) && !ts[0].accepted)
      || (&& Sized(ts, size) && |ts| > 1 && Steps(ts[1..|ts| - 1], from, to, size)
          && IsBlock(ts[|ts| - 1], to, size) && !ts[|ts| - 1].accepted && (size == 0 ==> |ts| == 2))
    case NX_INVALID_PARAMETERS => from == to >= size && Sized(ts, size) && |ts| == 1
    case NX_NOT_SUPPORTED => false
    case Failure(_) =>
      || (from == to && ts == [])
      || (Sized(ts, size) && Steps(ts[1..], from, to, size) && BlockAt(to, size) && (size == 0 ==> |ts| == 1))
  }

  /** The size comes first, and is accepted. */
  predicate Sized(ts: seq<Told>, size: nat) {
    ts != [] && ts[0].event == FileSizeEvent(size) && ts[0].accepted
  }

  /** Every data event of a run is backed by a request that was taken for a success. */
  ghost predicate Matched(ts: seq<Told>, a: seq<Attempt>) {
    && |Oks(a)| == (if ts == [] then 0 else |ts| - 1)
    && forall i :: 0 <= i < |Oks(a)| ==> MatchedAt(ts[i + 1], Oks(a)[i])
  }

  predicate MatchedAt(t: Told, a: Attempt) {
    t.event.DataEvent? && t.event.offset == a.start && Carries(a, t.event.data)
  }

  /**
   The connection of a run: there may be none; else how the request for the size went with which it starts: whether it
   was taken for a success, what happened to it, how it was answered, the size that was taken from the answer, and what
   it left.
   */
  datatype Probe = NotConnected | Probe(ok: bool, exchange: Exchange, reply: Reply, size: nat, entry: Line)

  /** The name of the field that the size is taken from, with exactly these letters. */
  const SIZE_NAME: seq<Byte> := [67, 111, 110, 116, 101, 110, 116, 45, 76, 101, 110, 103, 116, 104]

  /** A number as it is written: at most ten digits without a zero in front, below 2^31. */
  predicate NumberText(v: seq<Byte>) {
    1 <= |v| <= 10 && Numbers.AllDigits(v) && (v[0] == 48 ==> |v| == 1) && Numbers.DecimalValue(v) < 0x8000_0000
  }

  /**
   The size that is taken from fields one after the other: that of the last one of the name, none making it zero. Of a
   value that is no such number nothing is said.
   */
  predicate SizeTaken(fields: seq<Field>, size: nat) {
    if fields == [] then size == 0
    else
      var last := fields[|fields| - 1];
      if last.name == SIZE_NAME then NumberText(last.value) ==> size == Numbers.DecimalValue(last.value)
      else SizeTaken(fields[..|fields| - 1], size)
  }

  /** Takes the size from a field. */
  method HeaderFileSizeCallback(u: Updater, name: seq<Byte>, value: seq<Byte>)
    modifies u`fileSize
    ensures name != SIZE_NAME ==> u.fileSize == old(u.fileSize)
    ensures name == SIZE_NAME && NumberText(value) ==> u.fileSize == Numbers.DecimalValue(value)
  {
    if |name| != |SIZE_NAME| {
      return;
    }
    if name != SIZE_NAME {
      return;
    }
    u.fileSize := ScanNumber(value);
  }

  /** Reads a number; anything may come of a text that is none. */
  method ScanNumber(v: seq<Byte>) returns (n: nat)
    ensures NumberText(v) ==> n == Numbers.DecimalValue(v)
  {
    if NumberText(v) {
      n := Numbers.DecimalValue(v);
    } else {
      n := *;
    }
  }

  /** Takes the size from the fields that were reported from number `told` on. */
  method TakeSize(u: Updater, c: Http.Client, told: nat)
    requires told <= |c.reported| && u.fileSize == 0
    modifies u`fileSize
    ensures SizeTaken(c.reported[told..], u.fileSize)
  {
    hide NumberText;
    var i := told;
    while i < |c.reported|
      invariant told <= i <= |c.reported| && SizeTaken(c.reported[told..i], u.fileSize)
    {
      ghost var fields := c.reported[told..i + 1];
      assert fields[..i - told] == c.reported[told..i] && fields[i - told] == c.reported[i];
      HeaderFileSizeCallback(u, c.reported[i].name, c.reported[i].value);
      i := i + 1;
    }
    assert c.reported[told..i] == c.reported[told..];
  }

  /** Asks for the file's size; the response may put something into the buffer. */
  method GetFileSize(u: Updater, c: Http.Client) returns (status: Status, ghost probe: Probe)
    requires u.buffer.Length == BUFFER_SIZE && Usable(c, u.strayed) && Recorded(u) && c.responseCallback
    modifies u`fileSize, u`exchanges, u`strayed, u.buffer, c
    ensures Usable(c, u.strayed) && Recorded(u)
    ensures probe.Probe? && probe.ok == (status == NX_SUCCESS) && probe.entry == LineAt(u, c)
    ensures Asked(true, old(LineAt(u, c)), probe.exchange, probe.ok, probe.reply, probe.entry)
    ensures u.exchanges == old(u.exchanges) + [probe.exchange] && u.fileSize == probe.size
    ensures probe.ok && probe.reply.Answered? ==>
      SizeTaken(ReportedBy(Fetch.Await(old(LineAt(u, c)).left, probe.reply.net), probe.reply.opening), probe.size)
    ensures status == NX_SUCCESS || status.Failure?
  {
    hide *;
    u.fileSize := 0;
    ghost var got, e, reply;
    ghost var line, was, notes := LineAt(u, c), c.reported, Body.NotesOf(c);
    NotesAre(c);
    var ok, told := false, |c.reported|;
    ok, got, e, reply := NextRequest(u, c, Body.STATE_HEAD);
    NotesAre(c);
    InformedParts(notes, Body.NotesOf(c), line, reply);
    if !ok {
      var code: nat := *;
      status := Failure(code);
    } else {
      status := NX_SUCCESS;
      TakeSize(u, c, told);
      if reply.Answered? {
        NewFields(was, ReportedBy(Fetch.Await(line.left, reply.net), reply.opening));
      }
    }
    probe := Probe(ok, e, reply, u.fileSize, LineAt(u, c));
  }

  lemma NewFields(was: seq<Field>, more: seq<Field>)
    ensures (was + more)[|was|..] == more
  {
  }

  /** The size, and the blocks between two offsets. */
  predicate TellsUpTo(ts: seq<Told>, from: nat, to: nat, size: nat) {
    Sized(ts, size) && Steps(ts[1..], from, to, size) && (size == 0 ==> |ts| == 1)
  }

  /** A run between two blocks: what it asked the callback, the driver and the server for so far. */
  ghost predicate Running(cb: Handler, user: bool, size: nat, from: nat, to: nat, ts: seq<Told>, cs: seq<Driven>,
      a: seq<Attempt>) {
    && from <= size && TellsUpTo(ts, from, to, size)
    && AnswersFor(cb, user, ts, cs) && Matched(ts, a) && Bounded(a, to)
    && Walks(a, from, to, size) && Closes(ts, a, to, NX_SUCCESS)
  }

  /** What a whole run asked for. */
  ghost predicate Ran(cb: Handler, user: bool, size: nat, from: nat, to: nat, status: Status, ts: seq<Told>,
      cs: seq<Driven>, a: seq<Attempt>)
  {
    && RunEvents(ts, size, from, to, status) && AnswersFor(cb, user, ts, cs) && Matched(ts, a)
    && (forall o: nat :: CountAt(a, o) <= NUM_RETRIES)
    && Walks(a, from, AskedUpTo(ts, to, size, status), size) && Closes(ts, a, to, status)
  }

  /** Where the next request of a run that stops at `to` would be: a block that was rejected had been got. */
  function AskedUpTo(ts: seq<Told>, to: nat, size: nat, status: Status): nat {
    if status == NX_DOWNLOAD_ABORTED_BY_USER && |ts| > 1 && to <= size then Next(to, size) else to
  }

  lemma {:induction false} MatchedMore(ts: seq<Told>, a: seq<Attempt>, ts': seq<Told>, a': seq<Attempt>)
    requires Matched(ts, a) && ts != [] && |Oks(a')| == |ts'|
    requires forall i :: 0 <= i < |ts'| ==> MatchedAt(ts'[i], Oks(a')[i])
    ensures Matched(ts + ts', a + a')
  {
    OksAppend(a, a');
    hide MatchedAt, Oks;
    var x, y, all := Oks(a), Oks(a'), ts + ts';
    assert Oks(a + a') == x + y && |all| == 1 + |x| + |ts'|;
    forall i | 0 <= i < |x + y|
      ensures MatchedAt(all[i + 1], (x + y)[i])
    {
      if i < |x| {
        assert all[i + 1] == ts[i + 1] && (x + y)[i] == x[i];
      } else {
        assert all[i + 1] == ts'[i - |x|] && (x + y)[i] == y[i - |x|];
      }
    }
  }

  lemma {:induction false} BlockMatched(cb: Handler, user: bool, size: nat, start: nat, status: Status,
      driverStatus: nat, ts: seq<Told>, cs: seq<Driven>, a: seq<Attempt>)
    requires start <= size && BlockDone(cb, user, size, start, status, driverStatus, ts, cs, a)
    ensures |Oks(a)| == |ts| && forall i :: 0 <= i < |ts| ==> MatchedAt(ts[i], Oks(a)[i])
  {
    hide Carries, AnswersFor, InRange;
    assert |ts| <= 1;
    OksOfTries(a, !status.Failure?);
  }

  /** The requests for another block close a run that it ends, and go on with one that it does not end. */
  lemma ClosesOn(ts: seq<Told>, a: seq<Attempt>, to: nat, size: nat, status: Status, ts': seq<Told>, a': seq<Attempt>)
    requires ts != [] && Tries(a', to, size, !status.Failure?) && BlockTold(ts', to, size, status)
    ensures forall at: nat :: at == to || !status.Failure? ==> Closes(ts + ts', a + a', at, status)
  {
    var all := a + a';
    assert all[|all| - 1] == a'[|a'| - 1];
    if status.Failure? {
      assert ts + ts' == ts;
      assert forall i :: |all| - 3 <= i < |all| ==> all[i] == a'[i - |a|];
    }
    hide InRange, IsBlock;
  }

  /** Another block takes a run on, or ends it. */
  lemma AnotherBlock(cb: Handler, user: bool, size: nat, from: nat, to: nat, ts: seq<Told>, cs: seq<Driven>,
      a: seq<Attempt>, status: Status, driverStatus: nat, ts': seq<Told>, cs': seq<Driven>, a': seq<Attempt>)
    requires Running(cb, user, size, from, to, ts, cs, a) && BlockAt(to, size)
    requires BlockDone(cb, user, size, to, status, driverStatus, ts', cs', a')
    ensures status == NX_SUCCESS && size > 0 ==>
      Running(cb, user, size, from, Next(to, size), ts + ts', cs + cs', a + a')
    ensures status == NX_SUCCESS && size == 0 ==> Ran(cb, user, size, from, to, status, ts + ts', cs + cs', a + a')
    ensures status != NX_SUCCESS ==> Ran(cb, user, size, from, to, status, ts + ts', cs + cs', a + a')
  {
    RunningParts(cb, user, size, from, to, ts, cs, a);
    DoneParts(cb, user, size, to, status, driverStatus, ts', cs', a');
    BlockMatched(cb, user, size, to, status, driverStatus, ts', cs', a');
    TriesInRange(a', to, size, !status.Failure?);
    TriesWalk(a', to, size, !status.Failure?);
    hide *;
    AnswersMore(cb, user, ts, cs, ts', cs');
    BoundedMore(a, a', to, size, !status.Failure?, Next(to, size));
    MatchedMore(ts, a, ts', a');
    WalksOn(a, from, to, size, a', ts, ts', status);
    ClosesOn(ts, a, to, size, status, ts', a');
    MoreEvents(ts, from, to, size, status, ts');
    if status == NX_SUCCESS && size > 0 {
      BlockAdvances(to, size);
      PartsRunning(cb, user, size, from, Next(to, size), ts + ts', cs + cs', a + a');
    } else {
      PartsRun(cb, user, size, from, to, status, ts + ts', cs + cs', a + a');
    }
  }

  lemma TriesInRange(a: seq<Attempt>, start: nat, size: nat, ok: bool)
    requires Tries(a, start, size, ok)
    ensures AllInRange(a, size) && a != []
    ensures forall i :: 0 <= i < |a| ==> a[i].start == start && (a[i].ok <==> ok && i == |a| - 1)
  {
  }

  /** The requests for another block lead where the run goes. */
  lemma WalksOn(a: seq<Attempt>, from: nat, to: nat, size: nat, a': seq<Attempt>, ts: seq<Told>, ts': seq<Told>,
      status: Status)
    requires Walks(a, from, to, size) && to <= size && ts != [] && BlockTold(ts', to, size, status)
    requires Walks(a', to, if status.Failure? then to else Next(to, size), size)
    ensures status == NX_SUCCESS ==> Walks(a + a', from, Next(to, size), size)
    ensures status == NX_DOWNLOAD_ABORTED_BY_USER || status.Failure? ==>
      Walks(a + a', from, AskedUpTo(ts + ts', to, size, status), size)
    ensures status == NX_SUCCESS && size == 0 ==> Walks(a + a', from, AskedUpTo(ts + ts', to, size, status), size)
  {
    WalksJoin(a, a', from, to, if status.Failure? then to else Next(to, size), size);
    hide Walks, IsBlock;
  }

  lemma RunningParts(cb: Handler, user: bool, size: nat, from: nat, to: nat, ts: seq<Told>, cs: seq<Driven>,
      a: seq<Attempt>)
    requires Running(cb, user, size, from, to, ts, cs, a)
    ensures from <= size && TellsUpTo(ts, from, to, size) && AnswersFor(cb, user, ts, cs) && Matched(ts, a)
    ensures Bounded(a, to) && ts != [] && Walks(a, from, to, size)
  {
  }

  lemma PartsRunning(cb: Handler, user: bool, size: nat, from: nat, to: nat, ts: seq<Told>, cs: seq<Driven>,
      a: seq<Attempt>)
    requires from <= size && TellsUpTo(ts, from, to, size) && AnswersFor(cb, user, ts, cs) && Matched(ts, a)
    requires Bounded(a, to) && Walks(a, from, to, size) && Closes(ts, a, to, NX_SUCCESS)
    ensures Running(cb, user, size, from, to, ts, cs, a)
  {
  }

  lemma {:induction false} PartsRun(cb: Handler, user: bool, size: nat, from: nat, to: nat, status: Status,
      ts: seq<Told>, cs: seq<Driven>, a: seq<Attempt>)
    requires AnswersFor(cb, user, ts, cs) && Matched(ts, a) && forall o: nat :: CountAt(a, o) <= NUM_RETRIES
    requires Walks(a, from, AskedUpTo(ts, to, size, status), size) && Closes(ts, a, to, status)
    requires RunEvents(ts, size, from, to, status)
    ensures Ran(cb, user, size, from, to, status, ts, cs, a)
  {
  }

  lemma DoneParts(cb: Handler, user: bool, size: nat, start: nat, status: Status, driverStatus: nat,
      ts: seq<Told>, cs: seq<Driven>, a: seq<Attempt>)
    requires start <= size && BlockDone(cb, user, size, start, status, driverStatus, ts, cs, a)
    ensures Tries(a, start, size, !status.Failure?)
    ensures AnswersFor(cb, user, ts, cs) && BlockTold(ts, start, size, status)
    ensures status == NX_SUCCESS || status == NX_DOWNLOAD_ABORTED_BY_USER || status.Failure?
  {
  }

  lemma BlockAdvances(o: nat, size: nat)
    requires BlockAt(o, size) && size > 0
    ensures o < Next(o, size)
  {
  }

  /** What another block adds to what a run tells. */
  lemma MoreEvents(ts: seq<Told>, from: nat, to: nat, size: nat, status: Status, ts': seq<Told>)
    requires from <= size && TellsUpTo(ts, from, to, size) && BlockAt(to, size) && BlockTold(ts', to, size, status)
    requires status == NX_SUCCESS || status == NX_DOWNLOAD_ABORTED_BY_USER || status.Failure?
    ensures status == NX_SUCCESS && size > 0 ==> TellsUpTo(ts + ts', from, Next(to, size), size)
    ensures status != NX_SUCCESS || size == 0 ==> RunEvents(ts + ts', size, from, to, status)
  {
    StepsOrder(ts[1..], from, to, size);
    var all := ts + ts';
    if status.Failure? {
      assert all == ts;
    } else {
      assert ts' == [ts'[0]] && all[1..] == ts[1..] + ts' && all[1..|all| - 1] == ts[1..];
      if status == NX_SUCCESS {
        Onward(ts[1..], ts'[0], from, to, size);
      }
    }
    hide Steps, IsBlock;
  }

  /** A run that has reached the end of the file. */
  lemma RunComplete(cb: Handler, user: bool, size: nat, from: nat, to: nat, ts: seq<Told>, cs: seq<Driven>,
      a: seq<Attempt>)
    requires Running(cb, user, size, from, to, ts, cs, a) && from < size <= to
    ensures to == size && Ran(cb, user, size, from, to, NX_SUCCESS, ts, cs, a)
  {
    StepsOrder(ts[1..], from, to, size);
    hide Matched, AnswersFor, Walks;
  }

  lemma RunStart(cb: Handler, user: bool, size: nat, from: nat, ts: seq<Told>, cs: seq<Driven>, vote: bool)
    requires from <= size && ts == [Told(FileSizeEvent(size), true, vote)] && AnswersFor(cb, user, ts, cs)
    ensures Running(cb, user, size, from, from, ts, cs, [])
  {
    assert ts[1..] == [];
  }

  /** A run in its loop: before its first block, between two blocks, or behind its last one. */
  ghost predicate InLoop(cb: Handler, user: bool, size: nat, from: nat, to: nat, started: bool, status: Status,
      ts: seq<Told>, cs: seq<Driven>, a: seq<Attempt>) {
    if status != NX_SUCCESS || (started && size == 0) then Ran(cb, user, size, from, to, status, ts, cs, a)
    else Running(cb, user, size, from, to, ts, cs, a) && (!started ==> from == to)
  }

  lemma LoopBlock(cb: Handler, user: bool, size: nat, from: nat, to: nat, started: bool, ts: seq<Told>,
      cs: seq<Driven>, a: seq<Attempt>, status: Status, driverStatus: nat, ts': seq<Told>, cs': seq<Driven>,
      a': seq<Attempt>)
    requires InLoop(cb, user, size, from, to, started, NX_SUCCESS, ts, cs, a) && BlockAt(to, size)
    requires !(started && size == 0) && BlockDone(cb, user, size, to, status, driverStatus, ts', cs', a')
    ensures var to' := if status == NX_SUCCESS then Next(to, size) else to;
      InLoop(cb, user, size, from, to', true, status, ts + ts', cs + cs', a + a')
    ensures cb == OtaHandler && status == NX_SUCCESS ==> driverStatus == 0
    ensures status != NX_INVALID_PARAMETERS
  {
    hide Running, Ran;
    AnotherBlock(cb, user, size, from, to, ts, cs, a, status, driverStatus, ts', cs', a');
    hide Tries, AnswersFor, BlockTold, Carries;
  }

  /** The same behind what the run began with. */
  lemma LoopBlockOn(cb: Handler, user: bool, size: nat, from: nat, to: nat, started: bool, ts0: seq<Told>,
      cs0: seq<Driven>, ts: seq<Told>, cs: seq<Driven>, a: seq<Attempt>, status: Status, driverStatus: nat,
      ts': seq<Told>, cs': seq<Driven>, a': seq<Attempt>)
    requires InLoop(cb, user, size, from, to, started, NX_SUCCESS, ts0 + ts, cs0 + cs, a) && BlockAt(to, size)
    requires !(started && size == 0)
    requires BlockDone(cb, user, size, to, status, driverStatus, ts', cs', a')
    ensures var to' := if status == NX_SUCCESS then Next(to, size) else to;
      InLoop(cb, user, size, from, to', true, status, ts0 + (ts + ts'), cs0 + (cs + cs'), a + a')
    ensures cb == OtaHandler && status == NX_SUCCESS ==> driverStatus == 0
    ensures status != NX_INVALID_PARAMETERS
  {
    hide *;
    AssocTold(ts0, ts, ts');
    AssocDriven(cs0, cs, cs');
    LoopBlock(cb, user, size, from, to, started, ts0 + ts, cs0 + cs, a, status, driverStatus, ts', cs', a');
  }

  lemma LoopEnd(cb: Handler, user: bool, size: nat, from: nat, to: nat, status: Status, ts: seq<Told>,
      cs: seq<Driven>, a: seq<Attempt>)
    requires InLoop(cb, user, size, from, to, true, status, ts, cs, a) && BlockAt(from, size)
    requires status == NX_SUCCESS ==> to >= size
    ensures Ran(cb, user, size, from, to, status, ts, cs, a)
  {
    if status == NX_SUCCESS && size > 0 {
      RunComplete(cb, user, size, from, to, ts, cs, a);
    }
    hide Ran, Running;
  }

  /** A run in its loop, `t` having been asked since it began, when `ts0` and `cs0` had been told and driven. */
  ghost predicate Looping(u: Updater, c: Http.Client, size: nat, from: nat, started: bool, status: Status,
      was: Trace, ts0: seq<Told>, cs0: seq<Driven>, line: Line, t: Trace)
    reads u, u.buffer, c, c.held
  {
    && u.eventCb != NoHandler && u.buffer.Length == BUFFER_SIZE && u.fileSize == size && AskedSince(u, was, t)
    && Recorded(u)
    && InLoop(u.eventCb, u.userDownloadCb, size, from, u.fileBytesReceived, started, status, ts0 + t.told,
         cs0 + t.driven, t.attempts)
    && (!started ==> status == NX_SUCCESS && u.fileBytesReceived == from && BlockAt(from, size))
    && (u.eventCb == OtaHandler && status == NX_SUCCESS ==> u.adudrStatus == 0) && status != NX_INVALID_PARAMETERS
    && Usable(c, u.strayed) && Talk(line, t.attempts) && LineAfter(line, t.attempts) == LineAt(u, c)
  }

  /** Downloads the next block. */
  method NextBlock(u: Updater, c: Http.Client, ghost size: nat, ghost started: bool, ghost from: nat,
      ghost was: Trace, ghost ts0: seq<Told>, ghost cs0: seq<Driven>, ghost line: Line, ghost t: Trace)
    returns (status: Status, ghost t': Trace)
    requires Looping(u, c, size, from, started, NX_SUCCESS, was, ts0, cs0, line, t)
    requires started ==> u.fileBytesReceived < u.fileSize
    modifies u`fileBytesReceived, u`events, u`commands, u`adudrStatus, u`attempts, u`exchanges, u`strayed, u.buffer, c
    ensures Looping(u, c, size, from, true, status, was, ts0, cs0, line, t')
    ensures status == NX_SUCCESS && size > 0 ==> u.fileBytesReceived > old(u.fileBytesReceived)
    ensures status == NX_SUCCESS ==> u.fileBytesReceived <= size
  {
    hide InLoop, BlockDone, Talk, LineAfter, LineAt, Usable, Recorded, ExchangesOf;
    ghost var before, here := TraceOf(u), LineAt(u, c);
    ghost var ts, cs, a := t.told, t.driven, t.attempts;
    var n, to := u.fileSize - u.fileBytesReceived, u.fileBytesReceived;
    if to + BUFFER_SIZE < u.fileSize {
      n := BUFFER_SIZE;
    }
    ghost var ts', cs', a';
    status, ts', cs', a' := GetBlock(u, c, size, to, n);
    TalkJoin(line, a, a');
    LoopBlockOn(u.eventCb, u.userDownloadCb, size, from, to, started, ts0, cs0, ts, cs, a, status, u.adudrStatus, ts',
      cs', a');
    AssocTold(was.told, ts, ts');
    AssocDriven(was.driven, cs, cs');
    AssocAttempt(was.attempts, a, a');
    ExchangesMore(was.exchanges, a, a');
    t' := Trace(ts + ts', cs + cs', a + a', ExchangesOf(a + a'));
    if status == NX_SUCCESS {
      u.fileBytesReceived := u.fileBytesReceived + n;
    }
  }

  /** Downloads block after block from `from` on, at least one. */
  method RunBlocks(u: Updater, c: Http.Client, ghost size: nat, ghost from: nat, ghost ts0: seq<Told>,
      ghost cs0: seq<Driven>)
    returns (status: Status, ghost ts: seq<Told>, ghost cs: seq<Driven>, ghost a: seq<Attempt>)
    requires u.eventCb != NoHandler && u.buffer.Length == BUFFER_SIZE && u.fileSize == size && Recorded(u)
    requires Running(u.eventCb, u.userDownloadCb, size, from, from, ts0, cs0, []) && from == u.fileBytesReceived
    requires BlockAt(from, size) && (u.eventCb == OtaHandler ==> u.adudrStatus == 0) && Usable(c, u.strayed)
    modifies u`fileBytesReceived, u`events, u`commands, u`adudrStatus, u`attempts, u`exchanges, u`strayed, u.buffer, c
    ensures u.events == old(u.events) + ts && u.commands == old(u.commands) + cs && u.attempts == old(u.attempts) + a
    ensures Recorded(u) && u.exchanges == old(u.exchanges) + ExchangesOf(a)
    ensures Ran(u.eventCb, u.userDownloadCb, size, from, u.fileBytesReceived, status, ts0 + ts, cs0 + cs, a)
    ensures Talk(old(LineAt(u, c)), a) && status != NX_INVALID_PARAMETERS
    ensures u.eventCb == OtaHandler && status == NX_SUCCESS ==> u.adudrStatus == 0
  {
    ghost var line, was := LineAt(u, c), Trace(u.events, u.commands, u.attempts, u.exchanges);
    ghost var t := Trace([], [], [], []);
    var started := false;
    status := NX_SUCCESS;
    LoopStarts(u, c, size, from, ts0, cs0);
    hide *;
    while !started || (status == NX_SUCCESS && u.fileBytesReceived < u.fileSize)
      invariant Looping(u, c, size, from, started, status, was, ts0, cs0, line, t)
      invariant !started ==> status == NX_SUCCESS
      decreases !started, status == NX_SUCCESS, size - u.fileBytesReceived
    {
      status, t := NextBlock(u, c, size, started, from, was, ts0, cs0, line, t);
      started := true;
    }
    ts, cs, a := t.told, t.driven, t.attempts;
    LoopEnds(u, c, size, from, status, was, ts0, cs0, line, t);
  }

  lemma LoopStarts(u: Updater, c: Http.Client, size: nat, from: nat, ts0: seq<Told>, cs0: seq<Driven>)
    requires u.eventCb != NoHandler && u.buffer.Length == BUFFER_SIZE && u.fileSize == size && Recorded(u)
    requires Running(u.eventCb, u.userDownloadCb, size, from, from, ts0, cs0, []) && from == u.fileBytesReceived
    requires BlockAt(from, size) && (u.eventCb == OtaHandler ==> u.adudrStatus == 0) && Usable(c, u.strayed)
    ensures Looping(u, c, size, from, false, NX_SUCCESS, Trace(u.events, u.commands, u.attempts, u.exchanges), ts0, cs0,
        LineAt(u, c), Trace([], [], [], []))
  {
    assert ts0 + [] == ts0 && cs0 + [] == cs0 && u.exchanges + [] == u.exchanges;
    assert u.events + [] == u.events && u.commands + [] == u.commands && u.attempts + [] == u.attempts;
    hide Running, Usable, LineAt, Recorded;
  }

  lemma {:induction false} LoopEnds(u: Updater, c: Http.Client, size: nat, from: nat, status: Status,
      was: Trace, ts0: seq<Told>, cs0: seq<Driven>, line: Line, t: Trace)
    requires Looping(u, c, size, from, true, status, was, ts0, cs0, line, t) && BlockAt(from, size)
    requires status == NX_SUCCESS ==> u.fileBytesReceived >= u.fileSize
    ensures AskedSince(u, was, t) && Talk(line, t.attempts) && Recorded(u) && status != NX_INVALID_PARAMETERS
    ensures Ran(u.eventCb, u.userDownloadCb, size, from, u.fileBytesReceived, status, ts0 + t.told, cs0 + t.driven,
        t.attempts)
    ensures u.eventCb == OtaHandler && status == NX_SUCCESS ==> u.adudrStatus == 0
    ensures u.events == was.told + t.told && u.commands == was.driven + t.driven
    ensures u.attempts == was.attempts + t.attempts && u.exchanges == was.exchanges + ExchangesOf(t.attempts)
  {
    LoopEnd(u.eventCb, u.userDownloadCb, size, from, u.fileBytesReceived, status, ts0 + t.told, cs0 + t.driven,
      t.attempts);
    hide InLoop, Ran, Talk, LineAt, Usable, Recorded, ExchangesOf;
  }

  /** A run that ends before its first block. */
  lemma EmptyRun(cb: Handler, user: bool, size: nat, to: nat, status: Status, ts: seq<Told>, cs: seq<Driven>)
    requires AnswersFor(cb, user, ts, cs)
    requires match status
      case Failure(_) => ts == []
      case NX_DOWNLOAD_ABORTED_BY_USER =>
        |ts| == 1 && ts[0].event == FileSizeEvent(size) && !ts[0].accepted
      case NX_INVALID_PARAMETERS =>
        to >= size && |ts| == 1 && ts[0].event == FileSizeEvent(size) && ts[0].accepted
      case _ => false
    ensures Ran(cb, user, size, to, to, status, ts, cs, [])
  {
    hide AnswersFor;
  }

  /** Whether a run got as far as the answer to the size, and that was to go on. */
  predicate SizeAccepted(ts: seq<Told>) {
    ts != [] && ts[0].event.FileSizeEvent? && ts[0].accepted
  }

  /** Where a run starts: from the beginning, if it is not to resume and the size is accepted, else from the counter. */
  function StartOf(resume: bool, before: nat, ts: seq<Told>): nat {
    if !resume && SizeAccepted(ts) then 0 else before
  }

  /**
   What a run makes of its events: only one that resumes behind the end of the file is refused, and one that neither
   resumes nor starts over gets nowhere.
   */
  predicate Begins(resume: bool, before: nat, size: nat, ts: seq<Told>, to: nat, status: Status) {
    && (status == NX_INVALID_PARAMETERS <==> resume && SizeAccepted(ts) && before >= size)
    && (!resume && !SizeAccepted(ts) ==> to == before && status != NX_SUCCESS)
  }

  /** Tells of the size, and then downloads the blocks, from the start or from where the last run stopped. */
  method DeliverFile(u: Updater, c: Http.Client, ghost size: nat)
    returns (status: Status, ghost ts: seq<Told>, ghost cs: seq<Driven>, ghost a: seq<Attempt>)
    requires u.eventCb != NoHandler && u.buffer.Length == BUFFER_SIZE && Usable(c, u.strayed) && Recorded(u)
    requires u.fileSize == size
    modifies u`fileBytesReceived, u`events, u`commands, u`adudrStatus, u`attempts, u`exchanges, u`strayed, u.buffer, c
    ensures Recorded(u) && AskedSince(u, old(TraceOf(u)), Trace(ts, cs, a, ExchangesOf(a)))
    ensures Ran(u.eventCb, u.userDownloadCb, size, StartOf(u.doResume, old(u.fileBytesReceived), ts),
        u.fileBytesReceived, status, ts, cs, a)
    ensures Begins(u.doResume, old(u.fileBytesReceived), size, ts, u.fileBytesReceived, status)
    ensures u.eventCb == OtaHandler && status == NX_SUCCESS ==> u.adudrStatus == 0
    ensures Talk(old(LineAt(u, c)), a) && ts != []
  {
    hide *;
    ghost var was, vote, cb, user := TraceOf(u), u.world.user(|u.events|), u.eventCb, u.userDownloadCb;
    ghost var before, resume := u.fileBytesReceived, u.doResume;
    TraceIs(u);
    a := [];
    NoExchange(u.exchanges);
    NoTalk(LineAt(u, c));
    var ok := CallBack(u, u.eventCb, FileSizeEvent(u.fileSize));
    ts, cs := [Told(FileSizeEvent(size), ok, vote)], Drives(cb, FileSizeEvent(size), u.adudrStatus);
    SizeAnswered(cb, user, size, ok, vote, u.adudrStatus, resume, before);
    if !ok {
      status := NX_DOWNLOAD_ABORTED_BY_USER;
      AskedAgain(u, was, ts, cs, a);
      return;
    }
    if !u.doResume {
      u.fileBytesReceived := 0;
    } else if u.fileBytesReceived >= u.fileSize {
      status := NX_INVALID_PARAMETERS;
      AskedAgain(u, was, ts, cs, a);
      return;
    }
    ghost var ts0, cs0 := ts, cs;
    status, ts, cs, a := RunBlocks(u, c, size, u.fileBytesReceived, ts0, cs0);
    AssocTold(was.told, ts0, ts);
    AssocDriven(was.driven, cs0, cs);
    ts, cs := ts0 + ts, cs0 + cs;
    AskedAgain(u, was, ts, cs, a);
    RunBegins(resume, before, size, ts, u.fileBytesReceived, status);
  }

  lemma AskedAgain(u: Updater, was: Trace, ts: seq<Told>, cs: seq<Driven>, a: seq<Attempt>)
    requires u.events == was.told + ts && u.commands == was.driven + cs
    requires u.attempts == was.attempts + a || (a == [] && u.attempts == was.attempts)
    requires u.exchanges == was.exchanges + ExchangesOf(a)
    ensures AskedSince(u, was, Trace(ts, cs, a, ExchangesOf(a)))
  {
    assert was.attempts + [] == was.attempts;
    hide ExchangesOf;
  }

  /** What a run comes to once the callback has answered to the size. */
  lemma SizeAnswered(cb: Handler, user: bool, size: nat, ok: bool, vote: bool, driverStatus: nat, resume: bool,
      before: nat)
    requires cb != NoHandler && ok == Accepts(cb, user, FileSizeEvent(size), driverStatus, vote)
    ensures var ts, cs := [Told(FileSizeEvent(size), ok, vote)], Drives(cb, FileSizeEvent(size), driverStatus);
      && ts != [] && StartOf(resume, before, ts) == (if resume || !ok then before else 0)
      && (!ok ==>
            && Ran(cb, user, size, before, before, NX_DOWNLOAD_ABORTED_BY_USER, ts, cs, [])
            && Begins(resume, before, size, ts, before, NX_DOWNLOAD_ABORTED_BY_USER))
      && (ok && resume && before >= size ==>
            && Ran(cb, user, size, before, before, NX_INVALID_PARAMETERS, ts, cs, [])
            && Begins(resume, before, size, ts, before, NX_INVALID_PARAMETERS))
      && (ok && !(resume && before >= size) ==>
            var from := if resume then before else 0;
            Running(cb, user, size, from, from, ts, cs, []) && BlockAt(from, size))
      && (ok && cb == OtaHandler ==> driverStatus == 0)
  {
    var ts, cs := [Told(FileSizeEvent(size), ok, vote)], Drives(cb, FileSizeEvent(size), driverStatus);
    AnswersOne(cb, user, FileSizeEvent(size), ok, vote, driverStatus);
    assert ok && cb == OtaHandler ==> driverStatus == 0;
    hide Ran, Running, AnswersFor, Drives, Accepts;
    if !ok {
      EmptyRun(cb, user, size, before, NX_DOWNLOAD_ABORTED_BY_USER, ts, cs);
    } else if resume && before >= size {
      EmptyRun(cb, user, size, before, NX_INVALID_PARAMETERS, ts, cs);
    } else {
      RunStart(cb, user, size, if resume then before else 0, ts, cs, vote);
    }
  }

  /** A run that goes on behind the size. */
  lemma RunBegins(resume: bool, before: nat, size: nat, ts: seq<Told>, to: nat, status: Status)
    requires ts != [] && ts[0].event.FileSizeEvent? && ts[0].accepted && status != NX_INVALID_PARAMETERS
    requires !(resume && before >= size)
    ensures Begins(resume, before, size, ts, to, status)
    ensures StartOf(resume, before, ts) == if resume then before else 0
  {
  }

  /** A run inside an HTTPS connection: the size is asked for first. */
  method RequestHandler(u: Updater, c: Http.Client)
    returns (status: Status, ghost ts: seq<Told>, ghost cs: seq<Driven>, ghost a: seq<Attempt>, ghost probe: Probe)
    requires u.eventCb != NoHandler && u.buffer.Length == BUFFER_SIZE && Usable(c, u.strayed) && Recorded(u)
    modifies u`fileSize, u`fileBytesReceived, u`events, u`commands, u`adudrStatus, u`attempts, u`exchanges, u`strayed
    modifies u.buffer, c
    ensures Recorded(u) && u.events == old(u.events) + ts && u.commands == old(u.commands) + cs
    ensures u.attempts == old(u.attempts) + a
    ensures probe.Probe? && u.exchanges == old(u.exchanges) + [probe.exchange] + ExchangesOf(a)
    ensures Ran(u.eventCb, u.userDownloadCb, probe.size, StartOf(u.doResume, old(u.fileBytesReceived), ts),
        u.fileBytesReceived, status, ts, cs, a)
    ensures Begins(u.doResume, old(u.fileBytesReceived), probe.size, ts, u.fileBytesReceived, status)
    ensures u.eventCb == OtaHandler && status == NX_SUCCESS ==> u.adudrStatus == 0
    ensures Asked(true, old(LineAt(u, c)), probe.exchange, probe.ok, probe.reply, probe.entry)
    ensures probe.ok && probe.reply.Answered? ==>
      SizeTaken(ReportedBy(Fetch.Await(old(LineAt(u, c)).left, probe.reply.net), probe.reply.opening), probe.size)
    ensures Talk(probe.entry, a) && (probe.ok <==> ts != [])
  {
    hide *;
    Listen(u, c);
    status, probe := GetFileSize(u, c);
    if status != NX_SUCCESS {
      ts, cs, a := [], [], [];
      NothingTold(u, probe.size, status.code);
      NoTalk(probe.entry);
      return;
    }
    ghost var was := TraceOf(u);
    TraceIs(u);
    status, ts, cs, a := DeliverFile(u, c, probe.size);
    AskedIs(u, was, ts, cs, a);
  }

  /** Asks to be told of header fields. */
  method Listen(u: Updater, c: Http.Client)
    requires Usable(c, u.strayed)
    modifies c`responseCallback
    ensures c.responseCallback && Usable(c, u.strayed) && LineAt(u, c) == old(LineAt(u, c))
  {
    c.responseCallback := true;
  }

  lemma NoTalk(line: Line)
    ensures Talk(line, [])
  {
  }

  lemma TraceIs(u: Updater)
    ensures TraceOf(u) == Trace(u.events, u.commands, u.attempts, u.exchanges)
  {
  }

  lemma AskedIs(u: Updater, was: Trace, ts: seq<Told>, cs: seq<Driven>, a: seq<Attempt>)
    requires AskedSince(u, was, Trace(ts, cs, a, ExchangesOf(a)))
    ensures u.events == was.told + ts && u.commands == was.driven + cs && u.attempts == was.attempts + a
    ensures u.exchanges == was.exchanges + ExchangesOf(a)
  {
    hide ExchangesOf;
  }

  // ---------------------------------------------------------------- downloads

  /** Where the requests on a new connection start. */
  const FRESH: Line := Line(Body.Header([]), true, false, false, [])

  /** The request for the size, with which a new connection starts. */
  ghost predicate Opened(probe: Probe)
    requires probe.Probe?
  {
    && Asked(true, FRESH, probe.exchange, probe.ok, probe.reply, probe.entry)
    && (probe.ok && probe.reply.Answered? ==>
          SizeTaken(ReportedBy(Body.Header(probe.reply.net), probe.reply.opening), probe.size))
  }

  /** The size that a run goes by. */
  function SizeOf(probe: Probe): nat {
    if probe.Probe? then probe.size else 0
  }

  /** What a run tells and asks for: nothing without a connection and unless the request for the size succeeds. */
  ghost predicate Backs(probe: Probe, ts: seq<Told>, a: seq<Attempt>) {
    match probe
    case NotConnected => ts == [] && a == []
    case Probe(ok, _, _, _, entry) => Opened(probe) && Talk(entry, a) && (ok <==> ts != [])
  }

  /** What happened to the requests of a run. */
  function RunExchanges(probe: Probe, a: seq<Attempt>): seq<Exchange> {
    if probe.NotConnected? then [] else [probe.exchange] + ExchangesOf(a)
  }

  /** Runs the handler on a new connection. */
  method OnConnection(u: Updater)
    returns (status: Status, ghost ts: seq<Told>, ghost cs: seq<Driven>, ghost a: seq<Attempt>, ghost probe: Probe)
    requires u.eventCb != NoHandler && u.buffer.Length == BUFFER_SIZE && Recorded(u)
    modifies u`fileSize, u`fileBytesReceived, u`events, u`commands, u`adudrStatus, u`attempts, u`exchanges, u`strayed
    modifies u.buffer
    ensures u.events == old(u.events) + ts && u.commands == old(u.commands) + cs && u.attempts == old(u.attempts) + a
    ensures Recorded(u) && probe.Probe? && u.exchanges == old(u.exchanges) + RunExchanges(probe, a)
    ensures Ran(u.eventCb, u.userDownloadCb, SizeOf(probe), StartOf(u.doResume, old(u.fileBytesReceived), ts),
        u.fileBytesReceived, status, ts, cs, a)
    ensures Begins(u.doResume, old(u.fileBytesReceived), SizeOf(probe), ts, u.fileBytesReceived, status)
    ensures u.eventCb == OtaHandler && status == NX_SUCCESS ==> u.adudrStatus == 0
    ensures Backs(probe, ts, a)
  {
    var c := new Http.Client([]);
    u.strayed := false;
    ghost var line, es := LineAt(u, c), u.exchanges;
    assert Usable(c, u.strayed) && line == FRESH.(buffer := line.buffer) by {
      NewConnection(c, u.buffer);
    }
    hide *;
    status, ts, cs, a, probe := RequestHandler(u, c);
    FreshLine(line, probe);
    SizeIs(probe);
    BacksIs(probe, ts, a);
    ExchangesAre(es, probe, a);
  }

  lemma SizeIs(probe: Probe)
    requires probe.Probe?
    ensures SizeOf(probe) == probe.size
  {
  }

  lemma BacksIs(probe: Probe, ts: seq<Told>, a: seq<Attempt>)
    requires probe.Probe? && Opened(probe) && Talk(probe.entry, a) && (probe.ok <==> ts != [])
    ensures Backs(probe, ts, a)
  {
    hide Opened, Talk;
  }

  lemma ExchangesAre(es: seq<Exchange>, probe: Probe, a: seq<Attempt>)
    requires probe.Probe?
    ensures es + [probe.exchange] + ExchangesOf(a) == es + RunExchanges(probe, a)
  {
    hide ExchangesOf;
  }

  /** Connects and runs the handler. */
  method HttpsRequest(u: Updater)
    returns (status: Status, ghost ts: seq<Told>, ghost cs: seq<Driven>, ghost a: seq<Attempt>, ghost probe: Probe)
    requires u.eventCb != NoHandler && u.buffer.Length == BUFFER_SIZE && Recorded(u)
    modifies u`fileSize, u`fileBytesReceived, u`events, u`commands, u`adudrStatus, u`attempts, u`exchanges, u`strayed
    modifies u`connections, u.buffer
    ensures u.events == old(u.events) + ts && u.commands == old(u.commands) + cs && u.attempts == old(u.attempts) + a
    ensures Recorded(u) && u.exchanges == old(u.exchanges) + RunExchanges(probe, a)
    ensures u.connections == old(u.connections) + [probe.Probe?]
    ensures Ran(u.eventCb, u.userDownloadCb, SizeOf(probe), StartOf(u.doResume, old(u.fileBytesReceived), ts),
        u.fileBytesReceived, status, ts, cs, a)
    ensures Begins(u.doResume, old(u.fileBytesReceived), SizeOf(probe), ts, u.fileBytesReceived, status)
    ensures u.eventCb == OtaHandler && status == NX_SUCCESS ==> u.adudrStatus == 0
    ensures Backs(probe, ts, a)
  {
    var connected := Connect(u);
    hide *;
    if connected {
      status, ts, cs, a, probe := OnConnection(u);
    } else {
      var code: nat := *;
      status, ts, cs, a, probe := Failure(code), [], [], [], NotConnected;
      NoConnection(u.eventCb, u.userDownloadCb, SizeOf(probe), u.fileBytesReceived, u.doResume, code, u.exchanges);
      assert u.events + ts == u.events && u.commands + cs == u.commands && u.attempts + a == u.attempts;
    }
  }

  /** Whether the server can be connected to. */
  method Connect(u: Updater) returns (connected: bool)
    requires Recorded(u)
    modifies u`connections
    ensures Recorded(u) && u.connections == old(u.connections) + [connected]
  {
    connected := u.world.connects(|u.connections|);
    u.connections := u.connections + [connected];
  }

  /** A run that is over before it tells of anything. */
  lemma NothingTold(u: Updater, size: nat, code: nat)
    ensures u.events + [] == u.events && u.commands + [] == u.commands && u.attempts + [] == u.attempts
    ensures u.exchanges + ExchangesOf([]) == u.exchanges
    ensures StartOf(u.doResume, u.fileBytesReceived, []) == u.fileBytesReceived
    ensures Ran(u.eventCb, u.userDownloadCb, size, u.fileBytesReceived, u.fileBytesReceived, Failure(code), [], [], [])
    ensures Begins(u.doResume, u.fileBytesReceived, size, [], u.fileBytesReceived, Failure(code))
  {
    NoExchange(u.exchanges);
    NoConnection(u.eventCb, u.userDownloadCb, size, u.fileBytesReceived, u.doResume, code, u.exchanges);
    hide Ran, Begins, StartOf;
  }

  lemma NoConnection(cb: Handler, user: bool, size: nat, to: nat, resume: bool, code: nat, es: seq<Exchange>)
    ensures StartOf(resume, to, []) == to && Ran(cb, user, size, to, to, Failure(code), [], [], [])
    ensures Begins(resume, to, size, [], to, Failure(code)) && Backs(NotConnected, [], [])
    ensures es + RunExchanges(NotConnected, []) == es
  {
    AnswersNone(cb, user);
    EmptyRun(cb, user, size, to, Failure(code), [], []);
    hide Ran, AnswersFor;
  }

  lemma NewConnection(c: Http.Client, buffer: array<Byte>)
    requires Http.Connected(c, {}) && c.held == [] && c.responsePacket == null && c.remainingSize == 0
    requires c.connected && !c.responseHeaderReceived && c.network == [] && !c.keepAlive
    ensures Usable(c, false) && LineOf(c, false, buffer) == FRESH.(buffer := buffer[..])
  {
  }

  /** What the buffer holds makes no difference to how a request goes. */
  lemma FreshLine(line: Line, probe: Probe)
    requires probe.Probe? && Asked(true, line, probe.exchange, probe.ok, probe.reply, probe.entry)
    requires line == FRESH.(buffer := line.buffer)
    requires probe.ok && probe.reply.Answered? ==>
      SizeTaken(ReportedBy(Fetch.Await(line.left, probe.reply.net), probe.reply.opening), probe.size)
    ensures Opened(probe)
  {
    if probe.reply.Answered? {
      AwaitNothing(probe.reply.net);
    }
    hide KeepBehind, Strays, ReplyOf, SizeTaken, ReportedBy;
  }

  /**
   A run: whether it was to resume, where it started and stopped, its status, what it told the callback, how its
   connection started, and the requests that were made then. It goes by the size that the answer on the connection said.
   */
  datatype Run = Run(resume: bool, from: nat, to: nat, status: Status, told: seq<Told>, probe: Probe,
                     attempts: seq<Attempt>)
  {
    function Size(): nat {
      SizeOf(probe)
    }
  }

  /** Only a run that is not to resume starts over, and only once the file's size is accepted. */
  predicate Restarts(r: Run) {
    !r.resume && SizeAccepted(r.told)
  }

  /** A run that finds the counter at `before`. */
  ghost predicate RunFrom(r: Run, before: nat) {
    && RunEvents(r.told, r.Size(), r.from, r.to, r.status) && Matched(r.told, r.attempts)
    && Walks(r.attempts, r.from, AskedUpTo(r.told, r.to, r.Size(), r.status), r.Size())
    && Closes(r.told, r.attempts, r.to, r.status)
    && Backs(r.probe, r.told, r.attempts) && r.from == StartOf(r.resume, before, r.told)
    && Begins(r.resume, before, r.Size(), r.told, r.to, r.status)
  }

  /** A run as a record. */
  lemma {:induction false} RunRecorded(cb: Handler, user: bool, before: nat, resume: bool, to: nat, status: Status,
      ts: seq<Told>, cs: seq<Driven>, a: seq<Attempt>, probe: Probe)
    requires Ran(cb, user, SizeOf(probe), StartOf(resume, before, ts), to, status, ts, cs, a)
    requires Begins(resume, before, SizeOf(probe), ts, to, status) && Backs(probe, ts, a)
    ensures RunFrom(Run(resume, StartOf(resume, before, ts), to, status, ts, probe, a), before)
    ensures AnswersFor(cb, user, ts, cs) && forall o: nat :: CountAt(a, o) <= NUM_RETRIES
  {
    hide Backs, Begins, SizeOf;
  }

  lemma NothingDriven(cb: Handler, event: Event, status: nat)
    requires event.StatusEvent?
    ensures Drives(cb, event, status) == []
  {
  }

  /** A download that ran: its run, each event of which was answered, and no block of which was tried too often. */
  ghost predicate Downloaded(u: Updater, cb: Handler, before: nat, r: Run, cs: seq<Driven>)
    reads u`fileBytesReceived, u`userDownloadCb, u`adudrStatus
  {
    && RunFrom(r, before) && AnswersFor(cb, u.userDownloadCb, r.told, cs) && r.to == u.fileBytesReceived
    && (forall o: nat :: CountAt(r.attempts, o) <= 3)
    && (cb == OtaHandler && r.status == NX_SUCCESS ==> u.adudrStatus == 0)
  }

  lemma DownloadedIs(u: Updater, cb: Handler, before: nat, r: Run, cs: seq<Driven>)
    requires RunFrom(r, before) && AnswersFor(cb, u.userDownloadCb, r.told, cs) && r.to == u.fileBytesReceived
    requires forall o: nat :: CountAt(r.attempts, o) <= NUM_RETRIES
    requires cb == OtaHandler && r.status == NX_SUCCESS ==> u.adudrStatus == 0
    ensures Downloaded(u, cb, before, r, cs)
  {
    hide RunFrom, AnswersFor, CountAt;
  }

  /** Events that were told of since `was`, and the status in the end. */
  predicate ToldWith(was: seq<Told>, now: seq<Told>, ts: seq<Told>, status: Status) {
    var n := |was| + |ts|;
    |now| == n + 1 && now[..n] == was + ts && now[n].event == StatusEvent(status)
  }

  /** Runs a download with a callback and tells it the status in the end. */
  method RunDownload(u: Updater, eventCallback: Handler, resume: bool)
    returns (status: Status, ghost r: Run, ghost cs: seq<Driven>)
    requires u.buffer.Length == BUFFER_SIZE && Recorded(u) && eventCallback != NoHandler
    modifies u`fileSize, u`fileBytesReceived, u`eventCb, u`doResume
    modifies u`events, u`commands, u`adudrStatus, u`attempts, u`exchanges, u`connections, u`strayed, u.buffer
    ensures u.commands == old(u.commands) + cs && u.attempts == old(u.attempts) + r.attempts
    ensures Recorded(u) && u.exchanges == old(u.exchanges) + RunExchanges(r.probe, r.attempts)
    ensures u.connections == old(u.connections) + [r.probe.Probe?] && u.eventCb == NoHandler
    ensures r.resume == resume && r.status == status
    ensures Downloaded(u, eventCallback, old(u.fileBytesReceived), r, cs)
    ensures ToldWith(old(u.events), u.events, r.told, status)
  {
    hide *;
    u.eventCb, u.doResume := eventCallback, resume;
    ghost var before, user := u.fileBytesReceived, u.userDownloadCb;
    ghost var ts, a, probe;
    status, ts, cs, a, probe := HttpsRequest(u);
    ghost var from, to := StartOf(resume, before, ts), u.fileBytesReceived;
    r := Run(resume, from, to, status, ts, probe, a);
    RunRecorded(eventCallback, user, before, resume, to, status, ts, cs, a, probe);
    DownloadedIs(u, eventCallback, before, r, cs);
    TellStatus(u, eventCallback, status);
    u.eventCb := NoHandler;
  }

  /** Tells a callback the status of a download. */
  method TellStatus(u: Updater, cb: Handler, status: Status)
    requires cb != NoHandler && Recorded(u)
    modifies u`events, u`commands, u`adudrStatus
    ensures forall was, ts :: old(u.events) == was + ts ==> ToldWith(was, u.events, ts, status)
    ensures Recorded(u) && u.commands == old(u.commands) && u.adudrStatus == old(u.adudrStatus)
  {
    hide Recorded, Drives;
    var answer := CallBack(u, cb, StatusEvent(status));
    NothingDriven(cb, StatusEvent(status), u.adudrStatus);
    assert old(u.commands) + [] == old(u.commands);
  }

  /**
   One download. `r` is its run, without the final event with the status; `ran`: a run was tried at all.
   `argsOk`: the request names a host and a resource.
   */
  method IotcDownload(u: Updater, argsOk: bool, eventCallback: Handler, resume: bool)
    returns (status: Status, ghost ran: bool, ghost r: Run, ghost cs: seq<Driven>)
    requires u.buffer.Length == BUFFER_SIZE && Recorded(u)
    modifies u`fileSize, u`fileBytesReceived, u`eventCb, u`doResume
    modifies u`events, u`commands, u`adudrStatus, u`attempts, u`exchanges, u`connections, u`strayed, u.buffer
    ensures ran <==> argsOk && eventCallback != NoHandler && old(u.eventCb) == NoHandler
    ensures eventCallback != NoHandler ==> ToldWith(old(u.events), u.events, r.told, status)
    ensures eventCallback == NoHandler ==> u.events == old(u.events)
    ensures u.commands == old(u.commands) + cs && u.attempts == old(u.attempts) + r.attempts
    ensures Recorded(u) && u.exchanges == old(u.exchanges) + RunExchanges(r.probe, r.attempts)
    ensures u.connections == old(u.connections) + if ran then [r.probe.Probe?] else []
    ensures u.eventCb == old(u.eventCb)
    ensures ran ==>
      && Downloaded(u, eventCallback, old(u.fileBytesReceived), r, cs)
      && r.resume == resume && r.status == status
    ensures !ran ==>
      && u.fileBytesReceived == old(u.fileBytesReceived) && r.told == [] && cs == [] && r.attempts == []
      && r.probe == NotConnected
      && status == if argsOk && eventCallback != NoHandler then NX_NOT_SUPPORTED else NX_INVALID_PARAMETERS
  {
    hide Downloaded, Recorded, ExchangesOf;
    ghost var at := u.fileBytesReceived;
    ran, r, cs := false, Run(resume, at, at, NX_NOT_SUPPORTED, [], NotConnected, []), [];
    assert u.events + [] == u.events && u.commands + [] == u.commands && u.attempts + [] == u.attempts;
    assert u.exchanges + [] == u.exchanges && u.connections + [] == u.connections;
    if !argsOk || eventCallback == NoHandler {
      status := NX_INVALID_PARAMETERS;
      if eventCallback != NoHandler {
        TellStatus(u, eventCallback, status);
      }
      return;
    }
    if u.eventCb != NoHandler {
      status := NX_NOT_SUPPORTED;
      TellStatus(u, eventCallback, status);
      return;
    }
    ran := true;
    status, r, cs := RunDownload(u, eventCallback, resume);
  }
}
