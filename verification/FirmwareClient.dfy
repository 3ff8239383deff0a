/**
 The firmware update client: its calls, one after the other, what they ask of the driver, and what the flash holds when
 an image is installed.
 */
module FirmwareClient {
  import opened Bytes
  import opened FirmwareRuns
  import opened FirmwareUpdate
  import opened Ranges
  import opened Requests
  import Fields = HeaderFields
  import Http = HttpClient

  // ---------------------------------------------------------------- what was written

  /** What the writes that succeeded have left at a place in the flash. */
  datatype Cell = Unwritten | Written(b: Byte)

  predicate Covers(c: Driven, j: nat) {
    c.command.Write? && c.status == 0 && c.command.offset <= j < c.command.offset + |c.command.data|
  }

  /** The last write that covers a place counts. */
  function At(cs: seq<Driven>, j: nat): Cell {
    if cs == [] then Unwritten
    else
      var last := cs[|cs| - 1];
      if Covers(last, j) then Written(last.command.data[j - last.command.offset]) else At(cs[..|cs| - 1], j)
  }

  lemma {:induction false} AtAppend(a: seq<Driven>, b: seq<Driven>, j: nat)
    ensures At(a + b, j) == if At(b, j).Written? then At(b, j) else At(a, j)
  {
    if b == [] {
      assert a + b == a;
    } else {
      var n := |b| - 1;
      assert (a + b)[..|a + b| - 1] == a + b[..n];
      hide Covers;
      AtAppend(a, b[..n], j);
    }
  }

  lemma {:induction false} AtOne(c: Driven, j: nat)
    ensures At([c], j) == if Covers(c, j) then Written(c.command.data[j - c.command.offset]) else Unwritten
  {
    assert [c][..0] == [];
  }

  lemma {:induction false} AtRest(cs: seq<Driven>, j: nat)
    requires cs != [] && !cs[0].command.Write?
    ensures At(cs, j) == At(cs[1..], j)
  {
    AtAppend([cs[0]], cs[1..], j);
    AtOne(cs[0], j);
    assert cs == [cs[0]] + cs[1..];
  }

  /** Commands that are no writes leave nothing. */
  lemma {:induction false} NothingWritten(cs: seq<Driven>, j: nat)
    requires forall i :: 0 <= i < |cs| ==> !cs[i].command.Write?
    ensures At(cs, j) == Unwritten
  {
    if cs != [] {
      NothingWritten(cs[..|cs| - 1], j);
    }
  }

  /** The writes for accepted blocks leave the accepted data where it belongs, and nothing else. */
  lemma {:induction false} WritesTile(user: bool, ts: seq<Told>, cs: seq<Driven>, from: nat, to: nat, size: nat,
      j: nat)
    requires Steps(ts, from, to, size) && Answers(user, ts, cs)
    ensures from <= to && |AcceptedBytes(ts)| == to - from
    ensures At(cs, j) == if from <= j < to then Written(AcceptedBytes(ts)[j - from]) else Unwritten
    decreases |ts|
  {
    if ts != [] {
      var e := Next(from, size);
      var data := ts[0].event.data;
      AnswersRest(user, ts, cs);
      assert cs == [cs[0]] + cs[1..];
      hide Answers;
      WritesTile(user, ts[1..], cs[1..], e, to, size, j);
      AtAppend([cs[0]], cs[1..], j);
      AtOne(cs[0], j);
      assert AcceptedBytes(ts) == data + AcceptedBytes(ts[1..]);
    }
  }

  lemma AnswersRest(user: bool, ts: seq<Told>, cs: seq<Driven>)
    requires Answers(user, ts, cs) && ts != []
    ensures Answers(user, ts[1..], cs[1..]) && |cs| == |ts|
    ensures Asks(ts[0].event, cs[0].command) && (ts[0].accepted ==> cs[0].status == 0)
  {
    hide Asks;
    assert forall i :: 0 <= i < |ts| - 1 ==> ts[1..][i] == ts[i + 1] && cs[1..][i] == cs[i + 1];
  }

  lemma AnswersPart(user: bool, ts: seq<Told>, cs: seq<Driven>, i: nat, j: nat)
    requires Answers(user, ts, cs) && i <= j <= |ts|
    ensures |cs| == |ts| && Answers(user, ts[i..j], cs[i..j])
  {
    hide Asks;
  }

  /** The command for the size writes nothing, and that for a rejected block nothing in front of it. */
  lemma RejectedBehind(r: Run, before: nat, user: bool, cs: seq<Driven>, j: nat)
    requires RunFrom(r, before) && Answers(user, r.told, cs) && r.told != []
    ensures |Blocks(r)| + 1 <= |cs| <= |Blocks(r)| + 2 && !Covers(cs[0], j)
    ensures |cs| == |Blocks(r)| + 2 && j < r.to ==> !Covers(cs[|cs| - 1], j)
  {
    RunShape(r, before);
    var k := |r.told| - 1;
    assert Asks(r.told[0].event, cs[0].command) && Asks(r.told[k].event, cs[k].command);
    hide RunFrom, Answers, Steps;
  }

  /** Commands for the size, for accepted blocks, and perhaps for a rejected one. */
  lemma {:induction false} BlocksFlash(user: bool, blocks: seq<Told>, cs: seq<Driven>, from: nat, to: nat, size: nat,
      j: nat)
    requires Steps(blocks, from, to, size) && |blocks| + 1 <= |cs| <= |blocks| + 2
    requires Answers(user, blocks, cs[1..|blocks| + 1]) && !Covers(cs[0], j)
    requires |cs| == |blocks| + 2 ==> !Covers(cs[|cs| - 1], j)
    ensures from <= to && |AcceptedBytes(blocks)| == to - from
    ensures At(cs, j) == if from <= j < to then Written(AcceptedBytes(blocks)[j - from]) else Unwritten
  {
    hide *;
    var n := |blocks| + 1;
    WritesTile(user, blocks, cs[1..n], from, to, size, j);
    AtParts(cs, n, j);
  }

  /**
   What a run leaves in the flash: up to where it stopped, exactly the data that was accepted. A block that the driver
   wrote and the user rejected lies behind that.
   */
  lemma {:induction false} RunFlash(r: Run, before: nat, user: bool, cs: seq<Driven>, j: nat)
    requires RunFrom(r, before) && Answers(user, r.told, cs)
    ensures r.from <= r.to && |AcceptedBytes(r.told)| == r.to - r.from
    ensures j < r.to ==> At(cs, j) == if r.from <= j then Written(AcceptedBytes(r.told)[j - r.from]) else Unwritten
  {
    hide *;
    RunTiles(r, before);
    RunShape(r, before);
    if r.told == [] {
      NoFlash(r, before, user, cs, j);
    } else if j < r.to {
      RejectedBehind(r, before, user, cs, j);
      AnswersPart(user, r.told, cs, 1, |Blocks(r)| + 1);
      BlocksFlash(user, Blocks(r), cs, r.from, r.to, r.Size(), j);
    }
  }

  lemma {:induction false} NoFlash(r: Run, before: nat, user: bool, cs: seq<Driven>, j: nat)
    requires RunFrom(r, before) && Answers(user, r.told, cs) && r.told == []
    ensures r.from == r.to && At(cs, j) == Unwritten
  {
    hide Backs, Walks;
  }

  lemma {:induction false} AtParts(cs: seq<Driven>, n: nat, j: nat)
    requires 1 <= n <= |cs| <= n + 1 && !Covers(cs[0], j)
    ensures |cs| == n || !Covers(cs[n], j) ==> At(cs, j) == At(cs[1..n], j)
  {
    hide Covers;
    var first, middle, rest := [cs[0]], cs[1..n], cs[n..];
    AtAppend(first, middle, j);
    AtAppend(first + middle, rest, j);
    assert cs == first + middle + rest;
    AtOne(cs[0], j);
    if rest != [] {
      assert rest == [rest[0]];
      AtOne(rest[0], j);
    }
  }

  // ---------------------------------------------------------------- the calls

  /**
   Where the client stands: whether a driver is set, whether firmware is ready to be installed, and the counter that a
   resumed download starts from.
   */
  datatype State = State(driver: bool, ready: bool, received: nat)

  function StateOf(u: Updater): State
    reads u
  {
    State(u.aduDriver, u.firmwareReady, u.fileBytesReceived)
  }

  /**
   A call of the firmware client. A download may name a host and a resource or not (`argsOk`), and may pass a driver or
   not.
   */
  datatype Call =
    | DownloadCall(argsOk: bool, driverGiven: bool, resume: bool, userCallback: bool)
    | ApplyCall
    | CancelCall

  /** Whether a call tried a run. */
  datatype Tried = NoRun | Tried(run: Run)

  /**
   A call, what it returned, its run, what it told the callbacks, what it asked of the driver, and where the client
   stands after it.
   */
  datatype Step = Step(call: Call, status: Status, tried: Tried, events: seq<Told>, issued: seq<Driven>, after: State)

  /** The events of a call: some, and the status in the end. */
  predicate Tells(t: Step, ts: seq<Told>) {
    ToldWith([], t.events, ts, t.status)
  }

  function DriverStatus(status: nat): Status {
    if status == 0 then NX_SUCCESS else Failure(status)
  }

  /** An installation, and the reset of the board behind it only if it succeeded. */
  predicate Installation(cs: seq<Driven>, status: Status) {
    && cs != [] && cs[0].command == Install
    && |cs| == (if cs[0].status == 0 then 2 else 1)
    && (cs[0].status == 0 ==> cs[1].command == Apply)
    && status == DriverStatus(cs[|cs| - 1].status)
  }

  /** A download that gets as far as the driver: it is initialized, and then answers the events of a run. */
  ghost predicate Update(s: State, c: Call, t: Step)
    requires c.DownloadCall?
  {
    && t.issued != [] && t.issued[0].command == Initialize
    && if t.issued[0].status != 0 then
         && |t.issued| == 1 && t.status == Failure(t.issued[0].status) && t.tried == NoRun && t.events == []
         && t.after == State(false, false, s.received)
       else if !c.argsOk then
         && |t.issued| == 1 && t.status == NX_INVALID_PARAMETERS && t.tried == NoRun && Tells(t, [])
         && t.after == State(false, false, s.received)
       else
         && t.tried.Tried? && Tells(t, t.tried.run.told)
         && var r := t.tried.run;
         && r.resume == c.resume && r.status == t.status
         && RunFrom(r, s.received) && Answers(c.userCallback, r.told, t.issued[1..])
         && t.after == State(t.status == NX_SUCCESS, t.status == NX_SUCCESS, r.to)
  }

  /** What a call may do to the client and ask of the driver, and the statuses it may return. */
  ghost predicate CallStep(s: State, t: Step) {
    match t.call
    case DownloadCall(_, driverGiven, _, userCallback) =>
      if !driverGiven || s.driver then
        && (if userCallback then Tells(t, []) else t.events == [])
        && t.status == (if driverGiven then NX_NOT_SUPPORTED else NX_INVALID_PARAMETERS)
        && t.after == s.(ready := false) && t.issued == [] && t.tried == NoRun
      else Update(s, t.call, t)
    case ApplyCall =>
      && t.tried == NoRun && t.events == []
      && if s.driver && s.ready then t.after == State(false, false, s.received) && Installation(t.issued, t.status)
         else t.status == NX_INVALID_PARAMETERS && t.after == s && t.issued == []
    case CancelCall =>
      && t.issued == [] && t.tried == NoRun && t.events == []
      && if s.ready then t.status == NX_SUCCESS && t.after == State(false, false, s.received)
         else t.status == NX_INVALID_PARAMETERS && t.after == s
  }

  lemma UpdateIs(s: State, c: Call, status: Status, r: Run, events: seq<Told>, cs: seq<Driven>, ok: bool)
    requires c.DownloadCall? && c.argsOk && r.resume == c.resume && r.status == status
    requires RunFrom(r, s.received) && AnswersFor(OtaHandler, c.userCallback, r.told, cs)
    requires (ok <==> status == NX_SUCCESS) && ToldWith([], events, r.told, status)
    ensures Update(s, c, Step(c, status, Tried(r), events, [Driven(Initialize, 0)] + cs, State(ok, ok, r.to)))
  {
    hide RunFrom, Answers;
    assert ([Driven(Initialize, 0)] + cs)[1..] == cs;
  }

  /** What was told since `was`. */
  lemma ToldSince(was: seq<Told>, now: seq<Told>, ts: seq<Told>, status: Status)
    requires ToldWith(was, now, ts, status)
    ensures |was| <= |now| && now == was + now[|was|..] && ToldWith([], now[|was|..], ts, status)
  {
    var n := |was| + |ts|;
    assert now[..|was|] == now[..n][..|was|] == was && now[|was|..][..|ts|] == now[..n][|was|..] == ts;
    assert [] + ts == ts;
  }

  /** What happened to the requests of a call, and whether it had a connection, if it tried a run. */
  function TriedExchanges(t: Tried): seq<Exchange> {
    if t.Tried? then RunExchanges(t.run.probe, t.run.attempts) else []
  }

  function TriedConnections(t: Tried): seq<bool> {
    if t.Tried? then [t.run.probe.Probe?] else []
  }

  lemma NotConnectedAsks(a: seq<Attempt>)
    ensures RunExchanges(NotConnected, a) == []
  {
  }

  /** A download through the driver, once that is initialized. */
  method RunUpdate(u: Updater, argsOk: bool, resume: bool, userCallback: bool)
    returns (status: Status, ghost tried: Tried, ghost events: seq<Told>, ghost cs: seq<Driven>)
    requires u.buffer.Length == BUFFER_SIZE && u.eventCb == NoHandler && Recorded(u) && u.adudrStatus == 0
    requires !u.firmwareReady
    modifies u, u.buffer
    ensures u.eventCb == NoHandler && u.commands == old(u.commands) + cs && u.events == old(u.events) + events
    ensures Recorded(u) && u.exchanges == old(u.exchanges) + TriedExchanges(tried)
    ensures u.connections == old(u.connections) + TriedConnections(tried)
    ensures var call := DownloadCall(argsOk, true, resume, userCallback);
      Update(State(false, false, old(u.fileBytesReceived)), call,
        Step(call, status, tried, events, [Driven(Initialize, 0)] + cs, StateOf(u)))
    ensures status == NX_SUCCESS ==> u.adudrStatus == 0
  {
    hide Downloaded, Recorded, RunExchanges, RunFrom, Answers, AnswersFor, ToldWith;
    ghost var call, received := DownloadCall(argsOk, true, resume, userCallback), u.fileBytesReceived;
    ghost var was := u.events;
    tried := NoRun;
    u.aduDriver, u.userDownloadCb := true, userCallback;
    ghost var ran, r;
    status, ran, r, cs := IotcDownload(u, argsOk, OtaHandler, resume);
    ToldSince(was, u.events, r.told, status);
    events := u.events[|was|..];
    NotConnectedAsks(r.attempts);
    if ran {
      tried := Tried(r);
      DownloadedRun(u, OtaHandler, received, r, cs);
      UpdateIs(State(false, false, received), call, status, r, events, cs, status == NX_SUCCESS);
    }
    if status == NX_SUCCESS && u.adudrStatus == 0 {
      u.firmwareReady := true;
      return;
    }
    u.aduDriver, u.userDownloadCb := false, false;
  }

  /** Tells a user that a download is refused. */
  method Refuse(u: Updater, userCallback: bool, status: Status) returns (ghost events: seq<Told>)
    requires Recorded(u)
    modifies u`events, u`commands, u`adudrStatus
    ensures u.events == old(u.events) + events && u.commands == old(u.commands) && u.adudrStatus == old(u.adudrStatus)
    ensures Recorded(u) && if userCallback then ToldWith([], events, [], status) else events == []
  {
    hide Recorded, ToldWith;
    ghost var was := u.events;
    assert was + [] == was;
    events := [];
    if userCallback {
      TellStatus(u, UserHandler, status);
      ToldSince(was, u.events, [], status);
      events := u.events[|was|..];
    }
  }

  /** Downloads a firmware file through a driver. `driverGiven`: the caller passes a driver. */
  method IotcOtaFwDownload(u: Updater, argsOk: bool, driverGiven: bool, resume: bool, userCallback: bool)
    returns (status: Status, ghost tried: Tried, ghost events: seq<Told>, ghost issued: seq<Driven>)
    requires u.buffer.Length == BUFFER_SIZE && u.eventCb == NoHandler && Recorded(u)
    modifies u, u.buffer
    ensures u.eventCb == NoHandler && u.commands == old(u.commands) + issued && u.events == old(u.events) + events
    ensures Recorded(u) && u.exchanges == old(u.exchanges) + TriedExchanges(tried)
    ensures u.connections == old(u.connections) + TriedConnections(tried)
    ensures CallStep(old(StateOf(u)),
        Step(DownloadCall(argsOk, driverGiven, resume, userCallback), status, tried, events, issued, StateOf(u)))
    ensures status == NX_SUCCESS ==> u.adudrStatus == 0
  {
    hide RunFrom, Answers, Recorded, RunExchanges, ToldWith;
    tried, events, issued := NoRun, [], [];
    ghost var before := u.commands;
    assert before + [] == before && u.exchanges + [] == u.exchanges && u.connections + [] == u.connections;
    assert u.events + [] == u.events;
    u.firmwareReady := false;
    if u.firmwareReady { // never so
      return NX_INVALID_PARAMETERS, tried, events, issued;
    }
    if !driverGiven {
      status := NX_INVALID_PARAMETERS;
      events := Refuse(u, userCallback, status);
      return;
    }
    if u.aduDriver {
      status := NX_NOT_SUPPORTED;
      events := Refuse(u, userCallback, status);
      return;
    }
    Drive(u, Initialize);
    issued := [Driven(Initialize, u.adudrStatus)];
    if u.adudrStatus != 0 {
      status := DriverStatus(u.adudrStatus);
      return;
    }
    ghost var initialized, cs := issued, [];
    status, tried, events, cs := RunUpdate(u, argsOk, resume, userCallback);
    AssocDriven(before, initialized, cs);
    issued := initialized + cs;
  }

  /** Installs the downloaded firmware and resets the board. */
  method IotcOtaFwApply(u: Updater) returns (status: Status, ghost issued: seq<Driven>)
    requires Recorded(u)
    modifies u`aduDriver, u`firmwareReady, u`commands, u`adudrStatus
    ensures u.commands == old(u.commands) + issued && Recorded(u)
    ensures CallStep(old(StateOf(u)), Step(ApplyCall, status, NoRun, [], issued, StateOf(u)))
  {
    hide Recorded;
    issued := [];
    ghost var before := u.commands;
    assert before + [] == before;
    if !u.aduDriver {
      return NX_INVALID_PARAMETERS, issued;
    }
    if !u.firmwareReady {
      return NX_INVALID_PARAMETERS, issued;
    }
    Drive(u, Install);
    issued := [Driven(Install, u.adudrStatus)];
    if u.adudrStatus != 0 {
      u.aduDriver, u.firmwareReady := false, false;
    } else {
      ghost var installed := issued;
      Drive(u, Apply);
      issued := installed + [Driven(Apply, u.adudrStatus)];
      AssocDriven(before, installed, [Driven(Apply, u.adudrStatus)]);
      u.aduDriver, u.firmwareReady := false, false;
    }
    status := DriverStatus(u.adudrStatus);
  }

  /** Gives the downloaded firmware up. */
  method IotcOtaFwCancel(u: Updater) returns (status: Status)
    modifies u`aduDriver, u`firmwareReady
    ensures CallStep(old(StateOf(u)), Step(CancelCall, status, NoRun, [], [], StateOf(u)))
  {
    if !u.firmwareReady {
      return NX_INVALID_PARAMETERS;
    }
    u.aduDriver, u.firmwareReady := false, false;
    status := NX_SUCCESS;
  }

  // ---------------------------------------------------------------- how an update ends

  /** The driver did all that it was asked for. */
  predicate AllDone(cs: seq<Driven>) {
    forall i :: 0 <= i < |cs| ==> cs[i].status == 0
  }

  /** The user, if there is one to ask, accepts every event. */
  predicate AllVotedFor(user: bool, ts: seq<Told>) {
    user ==> forall i :: 0 <= i < |ts| ==> ts[i].vote
  }

  lemma {:induction false} RejectedBecause(user: bool, ts: seq<Told>, cs: seq<Driven>)
    requires Answers(user, ts, cs)
    ensures Rejects(ts) <==> !AllDone(cs) || !AllVotedFor(user, ts)
  {
    hide Asks;
    if Rejects(ts) {
      var i :| 0 <= i < |ts| && !ts[i].accepted;
      assert cs[i].status != 0 || (user && !ts[i].vote);
    } else {
      forall i | 0 <= i < |ts|
        ensures cs[i].status == 0 && (user ==> ts[i].vote)
      {
        assert ts[i].accepted;
      }
    }
  }

  /**
   An update is aborted if and only if the driver fails a command for an event or the user rejects one. So without a
   user's callback some command of an aborted update has a status other than zero.
   */
  lemma {:induction false} AbortedUpdate(s: State, t: Step)
    requires CallStep(s, t) && t.tried.Tried?
    ensures t.call.DownloadCall? && t.issued != []
    ensures t.status == NX_DOWNLOAD_ABORTED_BY_USER
         <==> !AllDone(t.issued[1..]) || !AllVotedFor(t.call.userCallback, t.tried.run.told)
  {
    hide *;
    var r := t.tried.run;
    UpdateTried(s, t);
    RejectedBecause(t.call.userCallback, r.told, t.issued[1..]);
    RunOutcome(r, s.received);
  }

  /** What an update comes to that tries a run. */
  lemma UpdateTried(s: State, t: Step)
    requires CallStep(s, t) && t.tried.Tried?
    ensures t.call.DownloadCall? && t.issued != [] && t.issued[0] == Driven(Initialize, 0)
    ensures var r := t.tried.run;
      && r.resume == t.call.resume && r.status == t.status && RunFrom(r, s.received)
      && Answers(t.call.userCallback, r.told, t.issued[1..])
      && t.after == State(t.status == NX_SUCCESS, t.status == NX_SUCCESS, r.to)
  {
    hide RunFrom, Answers;
  }

  lemma AllDoneBehind(cs: seq<Driven>)
    requires cs != []
    ensures AllDone(cs) <==> cs[0].status == 0 && AllDone(cs[1..])
  {
    assert forall i :: 0 < i < |cs| ==> cs[i] == cs[1..][i - 1];
    assert forall i :: 0 <= i < |cs| - 1 ==> cs[1..][i] == cs[i + 1];
  }

  /**
   An update that everybody does their part for leaves firmware ready to be installed: with a driver that does all that
   it is asked for, a user who accepts, a connection, and a server that answers the request for the size, and promptly
   those for ranges with the bytes that they ask for, all of it keeping the connection. It does not resume at or behind
   the end of the file. The flash then has the file from where the download started.
   */
  lemma {:induction false} ServedUpdate(s: State, t: Step, file: seq<Byte>, j: nat)
    requires CallStep(s, t) && t.call.DownloadCall? && t.call.driverGiven && !s.driver && t.call.argsOk
    requires AllDone(t.issued) && (t.call.resume ==> s.received < |file|) && t.tried.Tried?
    requires AllVotedFor(t.call.userCallback, t.tried.run.told)
    requires var r := t.tried.run;
      r.probe.Probe? && SizeServed(r.probe.exchange, |file|) && AllServed(r.attempts, file)
    ensures t.status == NX_SUCCESS && t.after == State(true, true, |file|)
    ensures var from := if t.call.resume then s.received else 0;
      from <= j < |file| ==> At(t.issued, j) == Written(file[j])
  {
    hide *;
    var r := t.tried.run;
    UpdateTried(s, t);
    AllDoneBehind(t.issued);
    RejectedBecause(t.call.userCallback, r.told, t.issued[1..]);
    ServedRun(r, s.received, file);
    RunOutcome(r, s.received);
    StepFlash(s, t, j);
  }

  /**
   An update whose request for the size is answered without a line of the client's own spelling makes firmware ready of
   which not a byte was downloaded.
   */
  lemma {:induction false} UnseenUpdate(s: State, t: Step, start: seq<Byte>, ls: seq<Fields.HeaderLine>)
    requires CallStep(s, t) && t.tried.Tried? && t.call.DownloadCall? && !t.call.resume
    requires AllDone(t.issued) && AllVotedFor(t.call.userCallback, t.tried.run.told)
    requires var r := t.tried.run;
      && r.probe.Probe? && r.probe.ok && r.probe.reply.Answered? && !GaveUp(r.attempts)
      && HeadReply(r.probe.reply.net, start, ls, Http.STATUS_MAPS)
    requires forall k :: 0 <= k < |ls| ==> !SizeLine(ls[k])
    ensures t.status == NX_SUCCESS && t.after == State(true, true, 0) && AcceptedBytes(t.tried.run.told) == []
  {
    hide *;
    var r := t.tried.run;
    UpdateTried(s, t);
    AllDoneBehind(t.issued);
    RejectedBecause(t.call.userCallback, r.told, t.issued[1..]);
    UnseenSize(r, s.received, start, ls);
    RunOutcome(r, s.received);
  }

  // ---------------------------------------------------------------- sequences of calls

  /** Where the client stands before a step. */
  function Before(s: State, steps: seq<Step>, i: nat): State
    requires i <= |steps|
  {
    if i == 0 then s else steps[i - 1].after
  }

  /** Any calls, one after the other. */
  ghost predicate IsRun(s: State, steps: seq<Step>) {
    forall i :: 0 <= i < |steps| ==> CallStep(Before(s, steps, i), steps[i])
  }

  /** All that the driver was asked for. */
  function Issued(steps: seq<Step>): seq<Driven> {
    if steps == [] then [] else Issued(steps[..|steps| - 1]) + steps[|steps| - 1].issued
  }

  /** All that the callbacks were told. */
  function AllEvents(steps: seq<Step>): seq<Told> {
    if steps == [] then [] else AllEvents(steps[..|steps| - 1]) + steps[|steps| - 1].events
  }

  /** The runs that were tried. */
  function Runs(steps: seq<Step>): seq<Run> {
    if steps == [] then []
    else
      var last := steps[|steps| - 1];
      Runs(steps[..|steps| - 1]) + if last.tried.Tried? then [last.tried.run] else []
  }

  /** Whether a call's run starts over. */
  predicate StartsOver(t: Step) {
    t.tried.Tried? && Restarts(t.tried.run)
  }

  /** What the driver was asked for since an update last started over. */
  function Since(steps: seq<Step>): seq<Driven> {
    if steps == [] then []
    else
      var last := steps[|steps| - 1];
      (if StartsOver(last) then [] else Since(steps[..|steps| - 1])) + last.issued
  }

  lemma StepAt(s: State, steps: seq<Step>, i: nat)
    requires IsRun(s, steps) && i < |steps|
    ensures CallStep(Before(s, steps, i), steps[i])
  {
  }

  lemma RunFront(s: State, steps: seq<Step>, n: nat)
    requires IsRun(s, steps) && n <= |steps|
    ensures IsRun(s, steps[..n])
  {
    hide CallStep;
    forall i | 0 <= i < n
      ensures CallStep(Before(s, steps[..n], i), steps[..n][i])
    {
      assert Before(s, steps[..n], i) == Before(s, steps, i);
    }
  }

  /** A step's run goes on from the counter; without one the counter stays, and nothing is written. */
  lemma StepRun(s: State, t: Step)
    requires CallStep(s, t)
    ensures t.tried.Tried? ==>
      && RunFrom(t.tried.run, s.received) && t.after.received == t.tried.run.to
      && t.call.DownloadCall? && t.issued != [] && !t.issued[0].command.Write?
      && Answers(t.call.userCallback, t.tried.run.told, t.issued[1..])
    ensures t.tried == NoRun ==>
      t.after.received == s.received && forall i :: 0 <= i < |t.issued| ==> !t.issued[i].command.Write?
  {
    hide RunFrom, Answers;
  }

  /** What a step's commands leave in front of where its run stopped. */
  lemma {:induction false} StepFlash(s: State, t: Step, j: nat)
    requires CallStep(s, t) && t.tried.Tried?
    ensures var r := t.tried.run;
      && r.from <= r.to && |AcceptedBytes(r.told)| == r.to - r.from
      && (j < r.to ==>
          At(t.issued, j) == if r.from <= j then Written(AcceptedBytes(r.told)[j - r.from]) else Unwritten)
  {
    hide *;
    StepRun(s, t);
    RunFlash(t.tried.run, s.received, t.call.userCallback, t.issued[1..], j);
    AtRest(t.issued, j);
  }

  /** What has been written since an update last started over: the data kept since then, at its place, and no more. */
  ghost predicate FlashHolds(cs: seq<Driven>, kept: seq<Byte>, start: nat, to: nat) {
    && start <= to && |kept| == to - start
    && forall j: nat :: j < to ==> At(cs, j) == if start <= j then Written(kept[j - start]) else Unwritten
  }

  lemma FlashMore(cs: seq<Driven>, kept: seq<Byte>, start: nat, s: State, t: Step)
    requires FlashHolds(cs, kept, start, s.received) && CallStep(s, t) && t.tried.Tried?
    ensures var r := t.tried.run;
      if Restarts(r) then FlashHolds(t.issued, AcceptedBytes(r.told), 0, r.to)
      else FlashHolds(cs + t.issued, kept + AcceptedBytes(r.told), start, r.to)
  {
    hide CallStep, RunFrom, Restarts, AcceptedBytes, At, Answers;
    var r := t.tried.run;
    StepRun(s, t);
    RestartsAtZero(r, s.received);
    StepFlash(s, t, 0);
    var data := AcceptedBytes(r.told);
    forall j: nat | j < r.to
      ensures At(t.issued, j) == if r.from <= j then Written(data[j - r.from]) else Unwritten
    {
      StepFlash(s, t, j);
    }
    if !Restarts(r) {
      FlashJoin(cs, kept, start, s.received, t.issued, data, r.to);
    }
  }

  lemma FlashJoin(cs: seq<Driven>, kept: seq<Byte>, start: nat, mid: nat, more: seq<Driven>, data: seq<Byte>, to: nat)
    requires FlashHolds(cs, kept, start, mid) && FlashHolds(more, data, mid, to)
    ensures FlashHolds(cs + more, kept + data, start, to)
  {
    forall j: nat | j < to
      ensures At(cs + more, j) == if start <= j then Written((kept + data)[j - start]) else Unwritten
    {
      AtAppend(cs, more, j);
    }
  }

  lemma FlashSame(cs: seq<Driven>, kept: seq<Byte>, start: nat, to: nat, more: seq<Driven>)
    requires FlashHolds(cs, kept, start, to) && forall i :: 0 <= i < |more| ==> !more[i].command.Write?
    ensures FlashHolds(cs + more, kept, start, to)
  {
    forall j: nat | j < to
      ensures At(cs + more, j) == At(cs, j)
    {
      NothingWritten(more, j);
      AtAppend(cs, more, j);
    }
  }

  /**
   The runs of calls go on from one another, from `received` to `now`, and what has been written since an update last
   started over is the data kept since then.
   */
  ghost predicate Tiled(received: nat, steps: seq<Step>, now: nat) {
    var runs := Runs(steps);
    && Chained(runs, received) && Counter(runs, received) == now
    && FlashHolds(Since(steps), Kept(runs), Start(runs, received), now)
  }

  /**
   After any calls: the runs go on from one another, the client's counter is theirs, and what has been written since an
   update last started over is the data kept since then.
   */
  lemma {:induction false} CallsTile(s: State, steps: seq<Step>)
    requires IsRun(s, steps)
    ensures Tiled(s.received, steps, Before(s, steps, |steps|).received)
    decreases |steps|
  {
    hide *;
    if steps == [] {
      NoCalls(s, steps);
    } else {
      var n := |steps| - 1;
      RunFront(s, steps, n);
      StepAt(s, steps, n);
      CallsTile(s, steps[..n]);
      BeforeLast(s, steps);
      MoreCalls(s.received, steps, Before(s, steps, n));
    }
  }

  lemma BeforeLast(s: State, steps: seq<Step>)
    requires steps != []
    ensures var n := |steps| - 1;
      Before(s, steps[..n], n) == Before(s, steps, n) && Before(s, steps, n + 1) == steps[n].after
  {
  }

  lemma NoCalls(s: State, steps: seq<Step>)
    requires steps == []
    ensures Tiled(s.received, steps, Before(s, steps, |steps|).received)
  {
    NoStart(s.received);
    hide Start;
    assert forall j: nat :: At([], j) == Unwritten;
  }

  lemma LastStep(steps: seq<Step>)
    requires steps != []
    ensures var init, last := steps[..|steps| - 1], steps[|steps| - 1];
      && Runs(steps) == (if last.tried.Tried? then Runs(init) + [last.tried.run] else Runs(init))
      && Since(steps) == (if StartsOver(last) then last.issued else Since(init) + last.issued)
  {
    var init, last := steps[..|steps| - 1], steps[|steps| - 1];
    assert Runs(init) + [] == Runs(init) && [] + last.issued == last.issued;
  }

  lemma {:induction false} LastRun(runs: seq<Run>, r: Run, received: nat)
    requires Chained(runs, received) && RunFrom(r, Counter(runs, received))
    ensures var more := runs + [r];
      && Chained(more, received) && Counter(more, received) == r.to
      && Kept(more) == (if Restarts(r) then AcceptedBytes(r.told) else Kept(runs) + AcceptedBytes(r.told))
      && Start(more, received) == if Restarts(r) then 0 else Start(runs, received)
  {
    var more := runs + [r];
    assert more[..|runs|] == runs;
    hide RunFrom, Restarts;
    StartStep(more, received);
    assert [] + AcceptedBytes(r.told) == AcceptedBytes(r.told);
  }

  lemma MoreCalls(received: nat, steps: seq<Step>, s: State)
    requires steps != [] && CallStep(s, steps[|steps| - 1])
    requires Tiled(received, steps[..|steps| - 1], s.received)
    ensures Tiled(received, steps, steps[|steps| - 1].after.received)
  {
    var init, last := steps[..|steps| - 1], steps[|steps| - 1];
    var runs := Runs(init);
    StepRun(s, last);
    LastStep(steps);
    hide CallStep, RunFrom, Restarts, FlashHolds, Start, Kept, Chained, Counter, Runs, Since, AcceptedBytes;
    if last.tried.Tried? {
      LastRun(runs, last.tried.run, received);
      FlashMore(Since(init), Kept(runs), Start(runs, received), s, last);
    } else {
      FlashSame(Since(init), Kept(runs), Start(runs, received), s.received, last.issued);
    }
  }

  // ---------------------------------------------------------------- what is installed

  /** The step that a command belongs to, and its place there. */
  lemma {:induction false} Locate(steps: seq<Step>, p: nat) returns (k: nat, i: nat)
    requires p < |Issued(steps)|
    ensures k < |steps| && i < |steps[k].issued| && steps[k].issued[i] == Issued(steps)[p]
    ensures Issued(steps)[..p] == Issued(steps[..k]) + steps[k].issued[..i]
  {
    var n := |steps| - 1;
    var init, last := steps[..n], steps[n];
    if p < |Issued(init)| {
      k, i := Locate(init, p);
      assert steps[..k] == init[..k];
    } else {
      k, i := n, p - |Issued(init)|;
    }
  }

  /** What a step does to the flags alone. */
  lemma StepFlags(s: State, t: Step)
    requires CallStep(s, t)
    ensures t.after.ready ==>
      || (t.call.DownloadCall? && t.status == NX_SUCCESS && t.tried.Tried? && t.after.driver)
      || (t.after == s && !s.driver)
    ensures s.driver == s.ready && !(t.call.DownloadCall? && s.ready) ==> t.after.driver == t.after.ready
    ensures s.driver && s.ready && t.call.DownloadCall? ==> t.after.driver && !t.after.ready
    ensures s.driver && !s.ready ==>
      && t.after == s && t.issued == []
      && (t.status == NX_INVALID_PARAMETERS || t.status == NX_NOT_SUPPORTED)
  {
    hide RunFrom, Answers, Installation;
  }

  /** Firmware is ready only right behind a successful download. */
  lemma {:induction false} ReadyBehindDownload(s: State, steps: seq<Step>, k: nat)
    requires IsRun(s, steps) && !s.ready && k <= |steps| && Before(s, steps, k).ready
    ensures k > 0 && steps[k - 1].call.DownloadCall? && steps[k - 1].status == NX_SUCCESS && steps[k - 1].tried.Tried?
    ensures Before(s, steps, k).driver
  {
    hide IsRun, CallStep;
    var s' := Before(s, steps, k - 1);
    StepAt(s, steps, k - 1);
    StepFlags(s', steps[k - 1]);
    if s'.ready {
      ReadyBehindDownload(s, steps, k - 1);
    }
  }

  /** The commands of a successful download: all with status zero, and one for every event of its run. */
  ghost predicate Completed(d: Step) {
    && d.call.DownloadCall? && d.status == NX_SUCCESS && d.tried.Tried?
    && d.tried.run.resume == d.call.resume && d.tried.run.status == NX_SUCCESS
    && d.issued != [] && d.issued[0] == Driven(Initialize, 0)
    && Answers(d.call.userCallback, d.tried.run.told, d.issued[1..])
    && forall i :: 0 <= i < |d.issued| ==> d.issued[i].status == 0 && d.issued[i].command != Install
  }

  lemma {:induction false} DownloadCompleted(s: State, d: Step)
    requires CallStep(s, d) && d.call.DownloadCall? && d.status == NX_SUCCESS && d.tried.Tried?
    ensures Completed(d)
  {
    hide *;
    var r := d.tried.run;
    UpdateTried(s, d);
    RunOutcome(r, s.received);
    RejectedBecause(d.call.userCallback, r.told, d.issued[1..]);
    AllDoneBehind(d.issued);
    NoInstallInDownload(s, d);
    CompletedIs(d);
  }

  lemma CompletedIs(d: Step)
    requires d.call.DownloadCall? && d.status == NX_SUCCESS && d.tried.Tried?
    requires d.tried.run.resume == d.call.resume && d.tried.run.status == NX_SUCCESS
    requires d.issued != [] && d.issued[0] == Driven(Initialize, 0)
    requires Answers(d.call.userCallback, d.tried.run.told, d.issued[1..]) && AllDone(d.issued)
    requires forall i :: 0 <= i < |d.issued| ==> d.issued[i].command != Install
    ensures Completed(d)
  {
    hide Answers;
  }

  /** Only an installation asks for one, and only when firmware is ready. */
  lemma InstallCommand(s: State, t: Step, i: nat)
    requires CallStep(s, t) && i < |t.issued| && t.issued[i].command == Install
    ensures i == 0 && t.call == ApplyCall && s.ready
  {
    if t.call.DownloadCall? {
      NoInstallInDownload(s, t);
    }
    hide RunFrom, Answers;
  }

  lemma NoInstallInDownload(s: State, t: Step)
    requires CallStep(s, t) && t.call.DownloadCall?
    ensures forall i :: 0 <= i < |t.issued| ==> t.issued[i].command != Install
  {
    if t.tried.Tried? {
      NoInstall(t.call.userCallback, t.tried.run.told, t.issued[1..]);
      assert forall i :: 1 <= i < |t.issued| ==> t.issued[i] == t.issued[1..][i - 1];
    }
    hide RunFrom, Answers;
  }

  lemma NoInstall(user: bool, ts: seq<Told>, cs: seq<Driven>)
    requires Answers(user, ts, cs)
    ensures forall i :: 0 <= i < |cs| ==> cs[i].command != Install
  {
    assert forall i :: 0 <= i < |ts| ==> Asks(ts[i].event, cs[i].command);
  }

  /**
   Command `p` is asked for in step `k`, the step before is a successful download, and the last that the driver was
   asked for are the commands of that download.
   */
  ghost predicate InstallBehind(steps: seq<Step>, p: nat, k: nat)
    requires p < |Issued(steps)|
  {
    && 0 < k < |steps| && steps[k].call == ApplyCall && Issued(steps)[..p] == Issued(steps[..k])
    && Completed(steps[k - 1]) && EndsWith(Issued(steps)[..p], steps[k - 1].issued)
  }

  /** Whatever calls are made: the driver is only asked to install right behind a successful download. */
  lemma InstalledImage(s: State, steps: seq<Step>, p: nat) returns (k: nat)
    requires IsRun(s, steps) && !s.ready
    requires p < |Issued(steps)| && Issued(steps)[p].command == Install
    ensures InstallBehind(steps, p, k)
  {
    hide IsRun, CallStep, Completed;
    var i;
    k, i := Locate(steps, p);
    StepAt(s, steps, k);
    InstallCommand(Before(s, steps, k), steps[k], i);
    ReadyBehindDownload(s, steps, k);
    StepAt(s, steps, k - 1);
    DownloadCompleted(Before(s, steps, k - 1), steps[k - 1]);
    assert Issued(steps[..k]) + steps[k].issued[..0] == Issued(steps[..k]);
    IssuedEnds(steps, k);
  }

  lemma IssuedEnds(steps: seq<Step>, k: nat)
    requires 0 < k <= |steps|
    ensures EndsWith(Issued(steps[..k]), steps[k - 1].issued)
  {
    assert steps[..k][..k - 1] == steps[..k - 1];
  }

  /** What was written since an update last started over is exactly a file. */
  ghost predicate Holds(cs: seq<Driven>, file: seq<Byte>) {
    forall j: nat :: j < |file| ==> At(cs, j) == Written(file[j])
  }

  lemma FlashIsFile(cs: seq<Driven>, kept: seq<Byte>, start: nat, file: seq<Byte>)
    requires FlashHolds(cs, kept, start, |file|)
    ensures Holds(cs, file) <==> file == [] || (start == 0 && kept == file)
  {
    if Holds(cs, file) && file != [] {
      assert At(cs, 0) == Written(file[0]);
      assert forall j: nat :: j < |file| ==> At(cs, j) == Written(file[j]) && At(cs, j) == Written(kept[j]);
    }
  }

  /**
   What is in the flash behind a successful download, and so when it is installed: the file that the download served, if
   and only if the counter was at zero in the beginning or some update started over since, and every run since then
   accepted that file's bytes. For a resumed update that takes in all the runs that it resumes.
   */
  lemma InstalledFlash(s: State, steps: seq<Step>, k: nat, file: seq<Byte>)
    requires IsRun(s, steps) && 0 < k <= |steps| && Completed(steps[k - 1])
    requires steps[k - 1].tried.run.Size() == |file|
    ensures var runs := Runs(steps[..k]);
      Holds(Since(steps[..k]), file)
      <==> (s.received == 0 || exists i :: 0 <= i < |runs| && Restarts(runs[i])) && Carried(runs, file)
  {
    hide *;
    var front := steps[..k];
    var runs := Runs(front);
    BehindDownload(s, steps, k);
    WholeFile(runs, s.received, file);
    FlashIsFile(Since(front), Kept(runs), Start(runs, s.received), file);
    EmptyKept(runs, s.received, file);
  }

  /** The runs up to a successful download, of which the last one is its own. */
  lemma BehindDownload(s: State, steps: seq<Step>, k: nat)
    requires IsRun(s, steps) && 0 < k <= |steps| && Completed(steps[k - 1])
    ensures var runs, size := Runs(steps[..k]), steps[k - 1].tried.run.Size();
      && Chained(runs, s.received) && runs != [] && runs[|runs| - 1] == steps[k - 1].tried.run
      && runs[|runs| - 1].status == NX_SUCCESS && Counter(runs, s.received) == size
      && FlashHolds(Since(steps[..k]), Kept(runs), Start(runs, s.received), size)
      && Start(runs, s.received) <= size && |Kept(runs)| == size - Start(runs, s.received)
  {
    hide IsRun, CallStep, Chained, Kept, Since, Runs, Start, Answers, At;
    var front := steps[..k];
    var runs := Runs(front);
    RunFront(s, steps, k);
    CallsTile(s, front);
    LastStep(front);
    assert Chained(runs, s.received) && Counter(runs, s.received) == Before(s, front, k).received;
    hide FlashHolds;
    RunsTile(runs, s.received);
  }

  lemma {:induction false} EmptyKept(runs: seq<Run>, received: nat, file: seq<Byte>)
    requires Start(runs, received) <= |file| && |Kept(runs)| == |file| - Start(runs, received)
    ensures file == [] ==> Kept(runs) == file && Start(runs, received) == 0
    ensures Kept(runs) == file ==> Start(runs, received) == 0
  {
  }

  /**
   Updates of one file, every block of which was answered completely, with nothing left of earlier responses: what is
   installed is the file if and only if the counter was at zero in the beginning or some update started over.
   */
  lemma HonestInstall(s: State, steps: seq<Step>, k: nat, file: seq<Byte>)
    requires IsRun(s, steps) && 0 < k <= |steps| && Completed(steps[k - 1])
    requires var runs := Runs(steps[..k]);
      forall i :: 0 <= i < |runs| ==> runs[i].Size() == |file| && AllComplete(runs[i], file)
    ensures var runs := Runs(steps[..k]);
      Holds(Since(steps[..k]), file) <==> s.received == 0 || exists i :: 0 <= i < |runs| && Restarts(runs[i])
  {
    hide *;
    BehindDownload(s, steps, k);
    InstalledFlash(s, steps, k, file);
    HonestRuns(Runs(steps[..k]), s.received, file);
  }

  // ---------------------------------------------------------------- a program's calls

  /** Makes a call. */
  method MakeCall(u: Updater, call: Call) returns (ghost step: Step)
    requires u.buffer.Length == BUFFER_SIZE && u.eventCb == NoHandler && Recorded(u)
    modifies u, u.buffer
    ensures u.eventCb == NoHandler && u.commands == old(u.commands) + step.issued
    ensures Recorded(u) && u.events == old(u.events) + step.events
    ensures u.exchanges == old(u.exchanges) + TriedExchanges(step.tried)
    ensures u.connections == old(u.connections) + TriedConnections(step.tried)
    ensures step.call == call && step.after == StateOf(u) && CallStep(old(StateOf(u)), step)
  {
    hide CallStep, Recorded, RunExchanges;
    var status;
    ghost var tried, events, issued := NoRun, [], [];
    assert u.commands + [] == u.commands && u.exchanges + [] == u.exchanges && u.connections + [] == u.connections;
    assert u.events + [] == u.events;
    match call {
      case DownloadCall(argsOk, driverGiven, resume, userCallback) =>
        status, tried, events, issued := IotcOtaFwDownload(u, argsOk, driverGiven, resume, userCallback);
      case ApplyCall =>
        status, issued := IotcOtaFwApply(u);
      case CancelCall =>
        status := IotcOtaFwCancel(u);
    }
    step := Step(call, status, tried, events, issued, StateOf(u));
  }

  /** Where the client stands in the beginning. */
  const INITIAL: State := State(false, false, 0)

  /**
   Every install command is behind a successful download, and the flash holds a file of its size if every run accepted
   that.
   */
  ghost predicate Backed(steps: seq<Step>, p: nat, k: nat)
    requires p < |Issued(steps)|
  {
    && InstallBehind(steps, p, k)
    && forall file: seq<Byte> :: |file| == steps[k - 1].tried.run.Size() ==>
         (Holds(Since(steps[..k]), file) <==> Carried(Runs(steps[..k]), file))
  }

  lemma InstallBacked(steps: seq<Step>, p: nat) returns (k: nat)
    requires IsRun(INITIAL, steps) && p < |Issued(steps)| && Issued(steps)[p].command == Install
    ensures Backed(steps, p, k)
  {
    k := InstalledImage(INITIAL, steps, p);
    hide IsRun, Completed, Holds, Carried, Runs, Since, Issued, EndsWith;
    forall file: seq<Byte> | |file| == steps[k - 1].tried.run.Size()
      ensures Holds(Since(steps[..k]), file) <==> Carried(Runs(steps[..k]), file)
    {
      InstalledFlash(INITIAL, steps, k, file);
    }
  }

  /** All that was asked of the world is what the calls asked for. */
  ghost predicate Called(u: Updater, steps: seq<Step>)
    reads u
  {
    && IsRun(INITIAL, steps) && u.eventCb == NoHandler && Recorded(u)
    && u.commands == Issued(steps) && StateOf(u) == Before(INITIAL, steps, |steps|)
    && u.exchanges == AllExchanges(Runs(steps)) && u.connections == AllConnections(Runs(steps))
    && u.events == AllEvents(steps)
  }

  /** Makes any calls, from the start of the program, in a world. */
  method RunCalls(world: World, calls: seq<Call>) returns (u: Updater, ghost steps: seq<Step>)
    ensures |steps| == |calls| && forall i :: 0 <= i < |steps| ==> steps[i].call == calls[i]
    ensures u.world == world && Called(u, steps)
    ensures forall p :: 0 <= p < |u.commands| && u.commands[p].command == Install ==>
      exists k :: Backed(steps, p, k)
  {
    hide *;
    u := new Updater(world);
    steps := [];
    NothingCalled(u);
    for n := 0 to |calls|
      invariant fresh(u) && fresh(u.buffer) && u.buffer.Length == BUFFER_SIZE && u.world == world
      invariant |steps| == n && forall i :: 0 <= i < |steps| ==> steps[i].call == calls[i]
      invariant Called(u, steps)
    {
      CalledIs(u, steps);
      ghost var step := MakeCall(u, calls[n]);
      OneMoreStep(steps, step);
      OneMoreTried(steps, step);
      steps := steps + [step];
      CalledMore(u, steps);
    }
    CalledIs(u, steps);
    forall p | 0 <= p < |u.commands| && u.commands[p].command == Install
      ensures exists k :: Backed(steps, p, k)
    {
      var k := InstallBacked(steps, p);
    }
  }

  lemma NothingCalled(u: Updater)
    requires u.fileBytesReceived == 0 && u.eventCb == NoHandler && !u.aduDriver && !u.firmwareReady
    requires u.events == [] && u.commands == [] && u.connections == [] && u.exchanges == []
    ensures Called(u, [])
  {
  }

  lemma CalledIs(u: Updater, steps: seq<Step>)
    requires Called(u, steps)
    ensures IsRun(INITIAL, steps) && u.eventCb == NoHandler && Recorded(u)
    ensures u.commands == Issued(steps) && StateOf(u) == Before(INITIAL, steps, |steps|)
    ensures u.exchanges == AllExchanges(Runs(steps)) && u.connections == AllConnections(Runs(steps))
    ensures u.events == AllEvents(steps)
  {
    hide AllEvents, IsRun, Recorded, Issued, AllExchanges, AllConnections, Runs;
  }

  lemma CalledMore(u: Updater, steps: seq<Step>)
    requires IsRun(INITIAL, steps) && u.eventCb == NoHandler && Recorded(u) && steps != []
    requires u.commands == Issued(steps) && StateOf(u) == steps[|steps| - 1].after
    requires u.exchanges == AllExchanges(Runs(steps)) && u.connections == AllConnections(Runs(steps))
    requires u.events == AllEvents(steps)
    ensures Called(u, steps)
  {
    hide AllEvents, IsRun, Recorded, Issued, AllExchanges, AllConnections, Runs;
  }

  /** The requests and connections of one more call. */
  lemma {:induction false} OneMoreTried(steps: seq<Step>, step: Step)
    ensures var more := steps + [step];
      && AllExchanges(Runs(more)) == AllExchanges(Runs(steps)) + TriedExchanges(step.tried)
      && AllConnections(Runs(more)) == AllConnections(Runs(steps)) + TriedConnections(step.tried)
      && AllEvents(more) == AllEvents(steps) + step.events
  {
    var more, runs := steps + [step], Runs(steps);
    assert more[..|steps|] == steps;
    hide RunExchanges;
    if step.tried.Tried? {
      assert Runs(more) == runs + [step.tried.run] && (runs + [step.tried.run])[..|runs|] == runs;
    } else {
      assert Runs(more) == runs + [] == runs;
    }
  }

  lemma {:induction false} OneMoreStep(steps: seq<Step>, step: Step)
    requires IsRun(INITIAL, steps) && CallStep(Before(INITIAL, steps, |steps|), step)
    ensures IsRun(INITIAL, steps + [step]) && Issued(steps + [step]) == Issued(steps) + step.issued
  {
    hide CallStep;
    var more := steps + [step];
    assert more[..|steps|] == steps;
    forall i | 0 <= i < |more|
      ensures CallStep(Before(INITIAL, more, i), more[i])
    {
      if i < |steps| {
        assert Before(INITIAL, more, i) == Before(INITIAL, steps, i);
      }
    }
  }

  // ---------------------------------------------------------------- the contract of the header

  /** Whether a step starts a download while firmware is ready. */
  predicate StartsWhileReady(s: State, steps: seq<Step>, i: nat)
    requires i < |steps|
  {
    steps[i].call.DownloadCall? && Before(s, steps, i).ready
  }

  /**
   As long as no download is started while firmware is ready, firmware is ready exactly when a driver is set. The first
   download that is started then loses this.
   */
  lemma {:induction false} ContractKeepsFlags(s: State, steps: seq<Step>, n: nat)
    requires IsRun(s, steps) && s.driver == s.ready && n <= |steps|
    requires forall i :: 0 <= i < n ==> !StartsWhileReady(s, steps, i)
    ensures Before(s, steps, n).driver == Before(s, steps, n).ready
    ensures n < |steps| && StartsWhileReady(s, steps, n) ==> steps[n].after.driver && !steps[n].after.ready
  {
    hide IsRun, CallStep;
    if n > 0 {
      ContractKeepsFlags(s, steps, n - 1);
      StepAt(s, steps, n - 1);
      StepFlags(Before(s, steps, n - 1), steps[n - 1]);
      assert !StartsWhileReady(s, steps, n - 1);
    }
    if n < |steps| {
      StepAt(s, steps, n);
      StepFlags(Before(s, steps, n), steps[n]);
    }
  }

  /** With a driver set and nothing ready, every later call returns an error, changes nothing and asks for nothing. */
  lemma {:induction false} StuckForever(s: State, steps: seq<Step>, n: nat, m: nat)
    requires IsRun(s, steps) && n <= m < |steps| && Before(s, steps, n).driver && !Before(s, steps, n).ready
    ensures steps[m].after == Before(s, steps, n) && steps[m].issued == []
    ensures steps[m].status == NX_INVALID_PARAMETERS || steps[m].status == NX_NOT_SUPPORTED
  {
    hide IsRun, CallStep;
    if n < m {
      StuckForever(s, steps, n, m - 1);
    }
    StepAt(s, steps, m);
    StepFlags(Before(s, steps, m), steps[m]);
  }
}
