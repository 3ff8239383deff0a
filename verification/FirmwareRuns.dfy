/**
 What runs of the download client deliver: which runs accept a file's bytes, and what is kept of runs that resume one
 another.
 */
module FirmwareRuns {
  import opened Bytes
  import opened Fetch
  import opened FirmwareUpdate
  import opened Ranges
  import opened Requests
  import opened Responses
  import Fields = HeaderFields
  import Http = HttpClient
  import Body = ResponseBody
  import Numbers

  // ---------------------------------------------------------------- what one run delivers

  lemma {:induction false} AcceptedAppend(a: seq<Told>, b: seq<Told>)
    ensures AcceptedBytes(a + b) == AcceptedBytes(a) + AcceptedBytes(b)
  {
    if a == [] {
      assert a + b == b;
    } else {
      assert (a + b)[1..] == a[1..] + b;
      AcceptedAppend(a[1..], b);
    }
  }

  /** The accepted blocks of a run. */
  function Blocks(r: Run): seq<Told>
  {
    if r.told == [] then []
    else if r.told[|r.told| - 1].accepted then r.told[1..]
    else if |r.told| == 1 then []
    else r.told[1..|r.told| - 1]
  }

  lemma {:induction false} StepsAccepted(ts: seq<Told>, from: nat, to: nat, size: nat)
    requires Steps(ts, from, to, size)
    ensures forall i :: 0 <= i < |ts| ==> ts[i].accepted && ts[i].event.DataEvent?
    decreases |ts|
  {
    if ts != [] {
      StepsAccepted(ts[1..], Next(from, size), to, size);
    }
  }

  lemma RunShape(r: Run, before: nat)
    requires RunFrom(r, before)
    ensures Steps(Blocks(r), r.from, r.to, r.Size())
    ensures r.told != [] ==> r.told[0].event.FileSizeEvent? && |Blocks(r)| < |r.told|
    ensures r.told != [] ==> Blocks(r) == r.told[1..|Blocks(r)| + 1]
    ensures forall i :: 0 <= i < |Blocks(r)| ==> i + 1 < |r.told| && Blocks(r)[i] == r.told[i + 1]
    ensures |Blocks(r)| + 1 < |r.told| ==>
      var last := r.told[|r.told| - 1];
      |r.told| == |Blocks(r)| + 2 && !last.accepted && last.event.DataEvent? && last.event.offset == r.to
    ensures r.status == NX_SUCCESS ==> r.from <= r.Size() == r.to && |Blocks(r)| + 1 == |r.told|
  {
    hide Matched, Backs, Walks, Closes;
    var ts := r.told;
    if Sized(ts, r.Size()) && |ts| > 1 && !r.status.NX_DOWNLOAD_ABORTED_BY_USER? {
      StepsAccepted(ts[1..], r.from, r.to, r.Size());
      assert ts[|ts| - 1] == ts[1..][|ts| - 2];
    }
  }

  /** A run accepts as much data as the counter moves on, which it never moves back. */
  lemma RunTiles(r: Run, before: nat)
    requires RunFrom(r, before)
    ensures r.from <= r.to && |AcceptedBytes(r.told)| == r.to - r.from
    ensures AcceptedBytes(r.told) == AcceptedBytes(Blocks(r))
  {
    RunShape(r, before);
    var blocks, ts := Blocks(r), r.told;
    BlocksTile(blocks, r.from, r.to, r.Size());
    hide RunFrom, Steps, Blocks, Contiguous;
    if ts != [] {
      AcceptedOf(ts, blocks);
    }
  }

  lemma {:induction false} AcceptedOf(ts: seq<Told>, blocks: seq<Told>)
    requires ts != [] && !ts[0].event.DataEvent? && |blocks| + 1 <= |ts|
    requires forall i :: 0 <= i < |blocks| ==> blocks[i] == ts[i + 1]
    requires |blocks| + 1 < |ts| ==> |ts| == |blocks| + 2 && !ts[|ts| - 1].accepted
    ensures AcceptedBytes(ts) == AcceptedBytes(blocks)
  {
    var size := [ts[0]];
    assert AcceptedBytes(size) == [] + AcceptedBytes(size[1..]) == [];
    AcceptedAppend(size, blocks);
    if |ts| == |blocks| + 1 {
      assert ts == size + blocks;
    } else {
      var rejected := [ts[|ts| - 1]];
      assert AcceptedBytes(rejected) == [] + AcceptedBytes(rejected[1..]) == [];
      AcceptedAppend(size + blocks, rejected);
      assert ts == size + blocks + rejected;
    }
  }

  /** Whether the data that a run accepts is that of a file. */
  ghost predicate CarriesFile(r: Run, file: seq<Byte>) {
    r.from <= r.to <= |file| && AcceptedBytes(r.told) == file[r.from..r.to]
  }

  /** Every block that was accepted arrived as a whole, or the buffer happened to hold what is missing. */
  ghost predicate AllWhole(r: Run, file: seq<Byte>) {
    forall i :: 0 <= i < |Oks(r.attempts)| && i + 1 < |r.told| && r.told[i + 1].accepted
                && r.told[i + 1].event.DataEvent? ==>
      Whole(Oks(r.attempts)[i], file, |r.told[i + 1].event.data|)
  }

  /**
   What a run accepts is the file from where it started to where it stopped, if and only if every block that it accepted
   arrived as a whole or the buffer happened to hold the bytes that did not. That a request was taken for a success does
   not say so.
   */
  lemma RunGenuine(r: Run, before: nat, file: seq<Byte>)
    requires RunFrom(r, before) && r.Size() == |file| && r.to <= |file|
    ensures CarriesFile(r, file) <==> AllWhole(r, file)
  {
    RunTiles(r, before);
    RunShape(r, before);
    var blocks := Blocks(r);
    BlocksCarry(blocks, r.from, r.to, file);
    assert |Oks(r.attempts)| == (if r.told == [] then 0 else |r.told| - 1);
    forall i | 0 <= i < |blocks|
      ensures GenuineAt(r, i, file)
    {
      BlockGenuine(r, before, i, file);
    }
    hide RunFrom, Genuine, Whole, Steps, Oks, AcceptedBytes, Contiguous, Blocks;
    AllGenuineAt(r, blocks, file);
  }

  /** Block number `i` that a run accepted is genuine exactly if it arrived as a whole. */
  ghost predicate GenuineAt(r: Run, i: nat, file: seq<Byte>) {
    && i + 1 < |r.told| && i < |Oks(r.attempts)| && r.told[i + 1].accepted && r.told[i + 1].event.DataEvent?
    && (Genuine(r.told[i + 1], file) <==>
        Whole(Oks(r.attempts)[i], file, |r.told[i + 1].event.data|))
  }

  lemma {:induction false} OksMade(line: Line, a: seq<Attempt>, i: nat)
    requires Talk(line, a) && i < |Oks(a)|
    ensures Made(Oks(a)[i]) && Oks(a)[i].ok
    decreases |a|
  {
    hide Made;
    if !a[0].ok || i > 0 {
      OksMade(a[0].after, a[1..], if a[0].ok then i - 1 else i);
    }
  }

  lemma BlockGenuine(r: Run, before: nat, i: nat, file: seq<Byte>)
    requires RunFrom(r, before) && i < |Blocks(r)| && r.Size() == |file|
    ensures GenuineAt(r, i, file)
  {
    hide *;
    RunShape(r, before);
    var t := Blocks(r)[i];
    assert t == r.told[i + 1];
    BlockMade(r, before, i);
    BlockEnds(Blocks(r), r.from, r.to, r.Size(), i);
    CarriedAt(r.told[i + 1], Oks(r.attempts)[i]);
    GenuineBlock(r.told[i + 1], Oks(r.attempts)[i], file);
    GenuineAtIs(r, i, file);
  }

  lemma CarriedAt(t: Told, a: Attempt)
    requires MatchedAt(t, a)
    ensures t.event.DataEvent? && t.event.offset == a.start && Carries(a, t.event.data)
  {
    hide Carries;
  }

  lemma GenuineAtIs(r: Run, i: nat, file: seq<Byte>)
    requires i + 1 < |r.told| && i < |Oks(r.attempts)| && r.told[i + 1].accepted && r.told[i + 1].event.DataEvent?
    requires Genuine(r.told[i + 1], file) <==> Whole(Oks(r.attempts)[i], file, |r.told[i + 1].event.data|)
    ensures GenuineAt(r, i, file)
  {
    hide Genuine, Whole, Oks;
  }

  /** The requests of a run, if it makes any. */
  lemma RunTalk(r: Run, before: nat)
    requires RunFrom(r, before) && r.probe.Probe?
    ensures Opened(r.probe) && Talk(r.probe.entry, r.attempts) && (r.probe.ok <==> r.told != [])
    ensures AllInRange(r.attempts, r.Size())
  {
    WalksInRange(r.attempts, r.from, AskedUpTo(r.told, r.to, r.Size(), r.status), r.Size());
    hide Opened, Talk, RunEvents, Matched, Walks, Closes, AllInRange, AskedUpTo;
  }

  /** A run that makes requests has a connection. */
  lemma RunProbed(r: Run, before: nat)
    requires RunFrom(r, before) && (r.attempts != [] || r.told != [])
    ensures r.probe.Probe?
  {
    hide Opened, Talk, RunEvents, Matched, Walks, Closes;
  }

  /** The request behind an event of a run is one of its requests. */
  lemma {:induction false} BlockMade(r: Run, before: nat, i: nat)
    requires RunFrom(r, before) && i + 1 < |r.told|
    ensures i < |Oks(r.attempts)| && MatchedAt(r.told[i + 1], Oks(r.attempts)[i])
    ensures Made(Oks(r.attempts)[i]) && Oks(r.attempts)[i].ok && InRange(Oks(r.attempts)[i], r.Size())
  {
    assert MatchedAt(r.told[i + 1], Oks(r.attempts)[i]);
    hide *;
    RunProbed(r, before);
    RunTalk(r, before);
    OksMade(r.probe.entry, r.attempts, i);
    OksInRange(r.attempts, i, r.Size());
  }

  lemma {:induction false} OksInRange(a: seq<Attempt>, i: nat, size: nat)
    requires AllInRange(a, size) && i < |Oks(a)|
    ensures InRange(Oks(a)[i], size)
  {
    hide InRange;
    assert InRange(a[0], size);
    if !a[0].ok || i > 0 {
      assert forall k :: 0 <= k < |a| - 1 ==> a[1..][k] == a[k + 1];
      OksInRange(a[1..], if a[0].ok then i - 1 else i, size);
    }
  }

  /** A request for a block asks for exactly the block's bytes. */
  lemma RangeOf(t: Attempt, file: seq<Byte>)
    requires InRange(t, |file|)
    ensures t.start <= |file| && |Part(file, t.start, t.end)| == Next(t.start, |file|) - t.start <= BUFFER_SIZE
    ensures Part(file, t.start, t.end) == file[t.start..Next(t.start, |file|)]
  {
  }

  lemma AllGenuineAt(r: Run, blocks: seq<Told>, file: seq<Byte>)
    requires forall i :: 0 <= i < |blocks| ==> GenuineAt(r, i, file) && blocks[i] == r.told[i + 1]
    requires |blocks| + 1 < |r.told| ==> |r.told| == |blocks| + 2 && !r.told[|r.told| - 1].accepted
    ensures AllGenuine(blocks, file) <==> AllWhole(r, file)
  {
    hide Genuine, Whole, Oks;
    if AllWhole(r, file) {
      forall i | 0 <= i < |blocks|
        ensures Genuine(blocks[i], file)
      {
        assert GenuineAt(r, i, file);
      }
    }
    if AllGenuine(blocks, file) {
      forall i | 0 <= i < |Oks(r.attempts)| && i + 1 < |r.told| && r.told[i + 1].accepted
        && r.told[i + 1].event.DataEvent?
        ensures Whole(Oks(r.attempts)[i], file, |r.told[i + 1].event.data|)
      {
        assert GenuineAt(r, i, file) && Genuine(blocks[i], file);
      }
    }
  }

  lemma {:induction false} BlockEnds(ts: seq<Told>, from: nat, to: nat, size: nat, i: nat)
    requires Steps(ts, from, to, size) && i < |ts|
    ensures ts[i].accepted && ts[i].event.DataEvent? && ts[i].event.offset + |ts[i].event.data| <= size
    ensures |ts[i].event.data| == Next(ts[i].event.offset, size) - ts[i].event.offset
    decreases |ts|
  {
    if i > 0 {
      BlockEnds(ts[1..], Next(from, size), to, size, i - 1);
    }
  }

  // ---------------------------------------------------------------- runs that go well

  /** Every block that was accepted was asked for with nothing left of earlier ones, and answered completely. */
  ghost predicate AllComplete(r: Run, file: seq<Byte>) {
    forall i :: 0 <= i < |Oks(r.attempts)| && i + 1 < |r.told| && r.told[i + 1].accepted
                && r.told[i + 1].event.DataEvent? ==>
      Satisfied(Oks(r.attempts)[i], file)
  }

  lemma CompleteWhole(r: Run, before: nat, file: seq<Byte>)
    requires RunFrom(r, before) && r.Size() == |file| && AllComplete(r, file)
    ensures AllWhole(r, file)
  {
    hide RunFrom, Oks, Satisfied, Whole;
    forall i | 0 <= i < |Oks(r.attempts)| && i + 1 < |r.told| && r.told[i + 1].accepted
      && r.told[i + 1].event.DataEvent?
      ensures Whole(Oks(r.attempts)[i], file, |r.told[i + 1].event.data|)
    {
      CompleteBlock(r, before, i, file);
    }
  }

  lemma {:induction false} CompleteBlock(r: Run, before: nat, i: nat, file: seq<Byte>)
    requires RunFrom(r, before) && r.Size() == |file| && i < |Oks(r.attempts)| && i + 1 < |r.told|
    requires r.told[i + 1].accepted && r.told[i + 1].event.DataEvent? && Satisfied(Oks(r.attempts)[i], file)
    ensures Whole(Oks(r.attempts)[i], file, |r.told[i + 1].event.data|)
  {
    hide *;
    var t, data := Oks(r.attempts)[i], r.told[i + 1].event.data;
    BlockMade(r, before, i);
    CarriedAt(r.told[i + 1], t);
    AcceptedBlock(r, before, i);
    RangeOf(t, file);
    CompleteRequest(t, file, |data|);
  }

  /** Whether a request that was answered was answered promptly, with the range that it asks for. */
  ghost predicate AnsweredPromptly(t: Attempt, file: seq<Byte>) {
    && !t.reply.Strayed?
    && (t.reply.Answered? ==>
          exists start, ls :: Prompt(t.reply.net, start, ls, Part(file, t.start, t.end), Http.STATUS_MAPS))
  }

  ghost predicate AllPrompt(a: seq<Attempt>, file: seq<Byte>) {
    forall k :: 0 <= k < |a| ==> AnsweredPromptly(a[k], file)
  }

  lemma PromptOne(t: Attempt, file: seq<Byte>)
    requires Made(t) && AnsweredPromptly(t, file) && t.line.left == Body.Header([]) && !t.line.strayed
    requires InRange(t, |file|)
    ensures t.after.left == Body.Header([]) && !t.after.strayed
    ensures t.ok ==> Satisfied(t, file)
  {
    hide Prompt, Satisfied, InRange, Part;
    if t.reply.Answered? {
      var start, ls :| Prompt(t.reply.net, start, ls, Part(file, t.start, t.end), Http.STATUS_MAPS);
      hide Made;
      RangeOf(t, file);
      PromptRequest(t, file, start, ls);
    } else {
      NotAnswered(t);
    }
  }

  lemma NotAnswered(t: Attempt)
    requires Made(t) && t.reply.Unsent? && !t.line.strayed
    ensures !t.ok && t.after.left == t.line.left && !t.after.strayed
  {
  }

  lemma {:induction false} TalkFirst(line: Line, a: seq<Attempt>)
    requires Talk(line, a) && a != []
    ensures a[0].line == line && Made(a[0]) && Talk(a[0].after, a[1..])
  {
    hide Made;
  }

  lemma {:induction false} PromptFirst(a: seq<Attempt>, file: seq<Byte>)
    requires AllPrompt(a, file) && a != []
    ensures AnsweredPromptly(a[0], file) && AllPrompt(a[1..], file)
  {
    hide AnsweredPromptly;
    assert forall k :: 0 <= k < |a| - 1 ==> a[1..][k] == a[k + 1];
  }

  lemma {:induction false} InRangeFirst(a: seq<Attempt>, size: nat)
    requires AllInRange(a, size) && a != []
    ensures InRange(a[0], size) && AllInRange(a[1..], size)
  {
    hide InRange;
    assert forall k :: 0 <= k < |a| - 1 ==> a[1..][k] == a[k + 1];
  }

  lemma {:induction false} OksFirst(a: seq<Attempt>, i: nat)
    requires i < |Oks(a)|
    ensures a != [] && (a[0].ok && i == 0 ==> Oks(a)[i] == a[0])
    ensures !(a[0].ok && i == 0) ==>
      var k := if a[0].ok then i - 1 else i;
      0 <= k < |Oks(a[1..])| && Oks(a)[i] == Oks(a[1..])[k]
  {
  }

  /** With every reply prompt each request finds nothing left, and each success is complete. */
  lemma {:induction false} PromptTalk(line: Line, a: seq<Attempt>, file: seq<Byte>, i: nat)
    requires Talk(line, a) && line.left == Body.Header([]) && !line.strayed && AllPrompt(a, file)
    requires AllInRange(a, |file|) && i < |Oks(a)|
    ensures Satisfied(Oks(a)[i], file)
    decreases |a|
  {
    hide *;
    OksFirst(a, i);
    TalkFirst(line, a);
    PromptFirst(a, file);
    InRangeFirst(a, |file|);
    PromptOne(a[0], file);
    if !a[0].ok || i > 0 {
      PromptTalk(a[0].after, a[1..], file, if a[0].ok then i - 1 else i);
    }
  }

  /** A run all of whose requests are answered promptly accepts its file's bytes. */
  lemma PromptRun(r: Run, before: nat, file: seq<Byte>)
    requires RunFrom(r, before) && (r.probe.Probe? ==> r.probe.entry.left == Body.Header([]) && !r.probe.entry.strayed)
    requires r.Size() == |file| && AllPrompt(r.attempts, file)
    ensures AllComplete(r, file)
  {
    forall i | 0 <= i < |Oks(r.attempts)| && i + 1 < |r.told| && r.told[i + 1].accepted
      && r.told[i + 1].event.DataEvent?
      ensures Satisfied(Oks(r.attempts)[i], file)
    {
      hide *;
      RunProbed(r, before);
      RunTalk(r, before);
      PromptTalk(r.probe.entry, r.attempts, file, i);
    }
    hide Satisfied, Oks, RunFrom, AllPrompt;
  }

  lemma AcceptedBlock(r: Run, before: nat, i: nat)
    requires RunFrom(r, before) && i + 1 < |r.told| && r.told[i + 1].accepted && r.told[i + 1].event.DataEvent?
    ensures var e := r.told[i + 1].event; e.offset <= r.Size() && |e.data| == Next(e.offset, r.Size()) - e.offset
  {
    hide *;
    RunShape(r, before);
    assert i < |Blocks(r)| by {
      assert |Blocks(r)| + 1 < |r.told| ==> !r.told[|Blocks(r)| + 1].accepted;
    }
    assert Blocks(r)[i] == r.told[i + 1];
    BlockEnds(Blocks(r), r.from, r.to, r.Size(), i);
  }

  lemma OpenedParts(probe: Probe)
    requires probe.Probe? && Opened(probe) && probe.reply.Answered?
    ensures var v, o := Body.Header(probe.reply.net), probe.reply.opening;
      && !probe.entry.strayed && Fetch.Found(v, o)
      && (probe.ok <==> FetchAll(v, Http.STATUS_MAPS, true, o).status == Http.NX_SUCCESS)
      && (probe.ok ==> probe.entry.left == Remains(v, Http.STATUS_MAPS, true, o))
      && probe.entry.keep == KeepBehind(false, v, o)
      && probe.entry.up == (probe.ok && (!probe.entry.left.Header? || probe.entry.keep))
  {
    AwaitNothing(probe.reply.net);
    hide FetchAll, Remains, Fetch.Found, Http.NetOk, KeepBehind;
  }

  // ---------------------------------------------------------------- which ranges a run asks for

  lemma {:induction false} WalkAt(a: seq<Attempt>, from: nat, to: nat, size: nat, i: nat)
    requires Walks(a, from, to, size) && i < |a| && size > 0
    ensures a[i].start <= a[i].end < size && a[i].end - a[i].start <= 4095
    ensures a[i].end - a[i].start == 4095 || a[i].end == size - 1
    ensures a[i].start == if i == 0 then from else if a[i - 1].ok then a[i - 1].end + 1 else a[i - 1].start
    ensures i == |a| - 1 ==> to == if a[i].ok then a[i].end + 1 else a[i].start
    decreases |a|
  {
    if i > 0 {
      WalkAt(a[1..], if a[0].ok then Next(from, size) else from, to, size, i - 1);
    }
  }

  lemma {:induction false} WalkNowhere(a: seq<Attempt>, from: nat, to: nat, i: nat)
    requires Walks(a, from, to, 0) && i < |a|
    ensures a[i].start == 0 && a[i].end == 0xFFFF_FFFF
    decreases |a|
  {
    if i > 0 {
      WalkNowhere(a[1..], if a[0].ok then Next(from, 0) else from, to, i - 1);
    }
  }

  /**
   The ranges that a run asks for, each with its first and its last byte, are of 4096 bytes, or up to the end of the
   file. The first one starts where the run does. Behind a success the next one starts at the byte behind it, and behind
   a failure the same one is asked for again: there is no gap and no overlap. A run that succeeds has asked for the last
   byte last, and one that fails for the block where it stops. For an empty file the last byte's number wraps around.
   */
  lemma {:induction false} RangesJoin(r: Run, before: nat, i: nat)
    requires RunFrom(r, before) && i < |r.attempts|
    ensures var t, size := r.attempts[i], r.Size();
      if size == 0 then t.start == 0 && t.end == 0xFFFF_FFFF
      else
        && t.start <= t.end < size && t.end - t.start <= 4095 && (t.end - t.start == 4095 || t.end == size - 1)
        && t.start == (if i == 0 then r.from
                       else if r.attempts[i - 1].ok then r.attempts[i - 1].end + 1 else r.attempts[i - 1].start)
        && (i == |r.attempts| - 1 && r.status == NX_SUCCESS ==> t.ok && t.end == size - 1)
        && (i == |r.attempts| - 1 && r.status.Failure? ==> !t.ok && t.start == r.to)
  {
    var a, size, to := r.attempts, r.Size(), AskedUpTo(r.told, r.to, r.Size(), r.status);
    assert Walks(a, r.from, to, size) && (r.status == NX_SUCCESS ==> r.to == size);
    assert Closes(r.told, a, r.to, r.status);
    hide RunFrom, Walks;
    if size == 0 {
      WalkNowhere(a, r.from, to, i);
    } else {
      WalkAt(a, r.from, to, size, i);
    }
  }

  /** The data of every block that the callback is told of is as long as the range that was asked for. */
  lemma {:induction false} EventRange(r: Run, before: nat, i: nat)
    requires RunFrom(r, before) && i + 1 < |r.told|
    ensures i < |Oks(r.attempts)| && r.told[i + 1].event.DataEvent? && Oks(r.attempts)[i].ok
    ensures var t, e := Oks(r.attempts)[i], r.told[i + 1].event;
      t.start == e.offset && (r.Size() > 0 ==> t.end + 1 == e.offset + |e.data|)
  {
    hide *;
    BlockMade(r, before, i);
    CarriedAt(r.told[i + 1], Oks(r.attempts)[i]);
    BlockTellsAll(r, before, i);
    InRangeIs(Oks(r.attempts)[i], r.Size());
  }

  lemma InRangeIs(t: Attempt, size: nat)
    requires InRange(t, size)
    ensures t.start <= size && (size > 0 ==> t.end + 1 == Next(t.start, size))
  {
  }

  lemma {:induction false} BlockTellsAll(r: Run, before: nat, i: nat)
    requires RunFrom(r, before) && i + 1 < |r.told| && r.told[i + 1].event.DataEvent?
    ensures var e := r.told[i + 1].event; e.offset <= r.Size() && |e.data| == Next(e.offset, r.Size()) - e.offset
  {
    hide *;
    RunShape(r, before);
    if i < |Blocks(r)| {
      var t := Blocks(r)[i];
      assert t == r.told[i + 1];
      BlockEnds(Blocks(r), r.from, r.to, r.Size(), i);
    } else {
      assert i + 1 == |r.told| - 1;
      RejectedBlock(r, before);
    }
  }

  /** The event that a run is rejected with, if it is not the size, is a block. */
  lemma {:induction false} RejectedBlock(r: Run, before: nat)
    requires RunFrom(r, before) && |r.told| > 1 && !r.told[|r.told| - 1].accepted
    ensures var e := r.told[|r.told| - 1].event;
      e.DataEvent? && e.offset == r.to <= r.Size() && |e.data| == Next(e.offset, r.Size()) - e.offset
  {
    assert Rejects(r.told);
    AllAccepted(r, before);
    hide Matched, Backs, Walks, Closes, Steps, Begins, Rejects;
  }

  // ---------------------------------------------------------------- how a run ends

  /** Whether the callback rejected an event. */
  predicate Rejects(ts: seq<Told>) {
    exists i :: 0 <= i < |ts| && !ts[i].accepted
  }

  lemma {:induction false} AllAccepted(r: Run, before: nat)
    requires RunFrom(r, before)
    ensures r.status == NX_DOWNLOAD_ABORTED_BY_USER <==> Rejects(r.told)
  {
    hide Matched, Backs, Walks, Closes, Begins;
    var ts := r.told;
    if r.status == NX_DOWNLOAD_ABORTED_BY_USER {
      assert !ts[|ts| - 1].accepted;
    } else if ts != [] {
      StepsAccepted(ts[1..], r.from, r.to, r.Size());
      assert forall i :: 1 <= i < |ts| ==> ts[i] == ts[1..][i - 1];
    }
  }

  lemma {:induction false} FailsBecause(r: Run, before: nat)
    requires RunFrom(r, before)
    ensures r.status.Failure? <==> r.probe.NotConnected? || !r.probe.ok || GaveUp(r.attempts)
  {
    hide Matched, Walks, Steps, Opened, Talk, Begins;
  }

  /**
   How a run ends, and why. It fails if and only if there is no connection, the request for the size fails, or the last
   three requests, all for the block at which the run stops, fail. It is aborted if and only if an event is rejected. It
   is refused if and only if it is to resume, at or behind the end of the file, and the size is accepted. If there is no
   such cause it succeeds, and has accepted as many bytes as the rest of the file has.
   */
  lemma {:induction false} RunOutcome(r: Run, before: nat)
    requires RunFrom(r, before)
    ensures r.status.Failure? <==> r.probe.NotConnected? || !r.probe.ok || GaveUp(r.attempts)
    ensures r.status == NX_DOWNLOAD_ABORTED_BY_USER <==> Rejects(r.told)
    ensures r.status == NX_INVALID_PARAMETERS <==> r.resume && SizeAccepted(r.told) && before >= r.Size()
    ensures r.status == NX_SUCCESS <==>
      && r.probe.Probe? && r.probe.ok && !GaveUp(r.attempts) && !Rejects(r.told)
      && !(r.resume && before >= r.Size())
    ensures r.status == NX_SUCCESS ==> r.to == r.Size() && |AcceptedBytes(r.told)| == r.Size() - r.from
  {
    AllAccepted(r, before);
    FailsBecause(r, before);
    RunTiles(r, before);
    SizeTold(r, before);
    hide Matched, Walks, Steps, Opened, Talk, Closes, GaveUp, Rejects, AcceptedBytes;
  }

  /** Behind a request for the size that succeeds the callback is told of the size. */
  lemma {:induction false} SizeTold(r: Run, before: nat)
    requires RunFrom(r, before)
    ensures r.probe.Probe? && r.probe.ok ==> r.told != [] && r.told[0].event == FileSizeEvent(r.Size())
    ensures r.told != [] && !Rejects(r.told) ==> SizeAccepted(r.told)
  {
    hide Matched, Walks, Steps, Opened, Talk, Closes;
  }

  // ---------------------------------------------------------------- the size that a run goes by

  /** Whether the size is taken from a line: only if its name has exactly these letters. */
  predicate SizeLine(l: Fields.HeaderLine) {
    l.name == [67, 111, 110, 116, 101, 110, 116, 45, 76, 101, 110, 103, 116, 104]
  }

  /** The last such line has the decimal digits of `n` for its value; without any `n` is zero. */
  predicate Announces(ls: seq<Fields.HeaderLine>, n: nat) {
    if exists k :: 0 <= k < |ls| && SizeLine(ls[k]) then exists k :: 0 <= k < |ls| && AnnouncedAt(ls, k, n)
    else n == 0
  }

  predicate AnnouncedAt(ls: seq<Fields.HeaderLine>, k: nat, n: nat)
    requires k < |ls|
  {
    && SizeLine(ls[k]) && Fields.Plain(ls[k]) && NumberText(ls[k].value) && Numbers.DecimalValue(ls[k].value) == n
    && forall i :: k < i < |ls| ==> !SizeLine(ls[i])
  }

  lemma {:induction false} LastTaken(fields: seq<Field>, k: nat, size: nat)
    requires k < |fields| && fields[k].name == SIZE_NAME && SizeTaken(fields, size)
    requires forall i :: k < i < |fields| ==> fields[i].name != SIZE_NAME
    ensures NumberText(fields[k].value) ==> size == Numbers.DecimalValue(fields[k].value)
  {
    hide NumberText;
    if k < |fields| - 1 {
      LastTaken(fields[..|fields| - 1], k, size);
    }
  }

  lemma {:induction false} NoneTaken(fields: seq<Field>, size: nat)
    requires SizeTaken(fields, size) && forall i :: 0 <= i < |fields| ==> fields[i].name != SIZE_NAME
    ensures size == 0
  {
    if fields != [] {
      NoneTaken(fields[..|fields| - 1], size);
    }
  }

  /** What is taken from the lines of a header is what they announce. */
  lemma {:induction false} AnnouncedTaken(ls: seq<Fields.HeaderLine>, n: nat, size: nat)
    requires forall i :: 0 <= i < |ls| ==> Fields.ValidLine(ls[i])
    requires Announces(ls, n) && SizeTaken(Fields.FieldsRead(ls), size)
    ensures size == n
  {
    hide Fields.ValidLine, Fields.Plain, Fields.ReadField, NumberText, SizeTaken;
    var fs := Fields.FieldsRead(ls);
    Fields.FieldsCount(ls);
    forall i | 0 <= i < |ls|
      ensures (fs[i].name == SIZE_NAME <==> SizeLine(ls[i])) && (Fields.Plain(ls[i]) ==> fs[i].value == ls[i].value)
    {
      Fields.FieldRead(ls, i);
      NameRead(ls[i]);
      Fields.ReadsValue(ls[i]);
    }
    if exists k :: 0 <= k < |ls| && SizeLine(ls[k]) {
      var k :| 0 <= k < |ls| && AnnouncedAt(ls, k, n);
      LastTaken(fs, k, size);
    } else {
      NoneTaken(fs, size);
    }
  }

  lemma NameRead(l: Fields.HeaderLine)
    ensures Fields.ReadField(l).name == l.name
  {
  }

  /**
   The size that a run goes by is the one that the answer to its request for it announces, in a line whose name is
   written in exactly the letters that the client compares it with; without such a line it is zero.
   */
  lemma {:induction false} AnnouncedSize(probe: Probe, start: seq<Byte>, ls: seq<Fields.HeaderLine>, n: nat)
    requires probe.Probe? && probe.ok && Opened(probe) && probe.reply.Answered?
    requires HeadReply(probe.reply.net, start, ls, Http.STATUS_MAPS) && Announces(ls, n)
    ensures probe.size == n
  {
    var net, o, notes := probe.reply.net, probe.reply.opening, Body.Notes(false, true, []);
    assert [] + Fields.FieldsRead(ls) == Fields.FieldsRead(ls);
    OpenedParts(probe);
    OpenedSize(probe);
    assert Arrives(net, start, ls, [], Http.STATUS_MAPS);
    hide *;
    ArrivesParts(net, start, ls, [], Http.STATUS_MAPS);
    ResponseNoted(net, start, ls, [], Http.STATUS_MAPS, o, notes);
    ReportedIs(Body.Header(net), o);
    LinesValid(start, ls);
    AnnouncedTaken(ls, n, probe.size);
  }

  lemma OpenedSize(probe: Probe)
    requires probe.Probe? && probe.ok && Opened(probe) && probe.reply.Answered?
    ensures SizeTaken(ReportedBy(Body.Header(probe.reply.net), probe.reply.opening), probe.size)
  {
    hide Asked, SizeTaken, ReportedBy;
  }

  lemma ReportedIs(v: Body.View, o: Body.Opening)
    ensures ReportedBy(v, o) == Body.Noted(Body.Notes(false, true, []), v, Http.STATUS_MAPS, o).reported
  {
    hide Body.Noted;
  }

  lemma LinesValid(start: seq<Byte>, ls: seq<Fields.HeaderLine>)
    requires Fields.ValidHeader(start, ls)
    ensures forall i :: 0 <= i < |ls| ==> Fields.ValidLine(ls[i])
  {
    hide Fields.ValidLine;
  }

  /**
   How a whole file gets lost: the answer to the request for the size has no line of that name, be it only that its
   letters are in another case. A download that is not to resume, with no event rejected and no block given up, then
   succeeds without a byte.
   */
  lemma {:induction false} UnseenSize(r: Run, before: nat, start: seq<Byte>, ls: seq<Fields.HeaderLine>)
    requires RunFrom(r, before) && r.probe.Probe? && r.probe.ok && r.probe.reply.Answered?
    requires HeadReply(r.probe.reply.net, start, ls, Http.STATUS_MAPS)
    requires forall k :: 0 <= k < |ls| ==> !SizeLine(ls[k])
    requires !r.resume && !Rejects(r.told) && !GaveUp(r.attempts)
    ensures r.status == NX_SUCCESS && r.Size() == 0 && AcceptedBytes(r.told) == []
  {
    assert Announces(ls, 0);
    hide *;
    RunTalk(r, before);
    AnnouncedSize(r.probe, start, ls, 0);
    SizeIsOf(r);
    RunOutcome(r, before);
    RunTiles(r, before);
  }

  lemma SizeIsOf(r: Run)
    requires r.probe.Probe?
    ensures r.Size() == r.probe.size
  {
  }

  // ---------------------------------------------------------------- runs that are served well

  /**
   The request for the size can be built and sent, and its reply is a header in a chain of its own that announces `n`
   and keeps the connection.
   */
  ghost predicate SizeServed(e: Exchange, n: nat) {
    e.built && e.sent && exists start, ls :: SizeReply(ReplyOf(e), start, ls, n)
  }

  ghost predicate SizeReply(net: Net, start: seq<Byte>, ls: seq<Fields.HeaderLine>, n: nat) {
    && HeadReply(net, start, ls, Http.STATUS_MAPS) && Fields.HeaderKeeps(start, ls) && Announces(ls, n)
    && net[0] != [] && |Fields.WriteHeader(start, ls)| + Numbers.ContentLength(net[0][0]) < 0x1_0000_0000
  }

  /**
   A request for a range can be built and sent, and its reply comes promptly, with the bytes of the file that were asked
   for, and keeps the connection.
   */
  ghost predicate RangeServed(t: Attempt, file: seq<Byte>) {
    t.exchange.built && t.exchange.sent && exists start, ls :: RangeReply(ReplyOf(t.exchange), start, ls, t, file)
  }

  ghost predicate RangeReply(net: Net, start: seq<Byte>, ls: seq<Fields.HeaderLine>, t: Attempt, file: seq<Byte>) {
    Prompt(net, start, ls, Part(file, t.start, t.end), Http.STATUS_MAPS) && Fields.HeaderKeeps(start, ls)
  }

  /** Such a request succeeds, and leaves the connection as it was. */
  lemma {:induction false} ServedOne(t: Attempt, file: seq<Byte>)
    requires Made(t) && RangeServed(t, file) && InRange(t, |file|)
    requires t.line.left == Body.Header([]) && t.line.up && !t.line.strayed
    ensures t.ok && Satisfied(t, file) && t.after.left == Body.Header([]) && t.after.up && !t.after.strayed
  {
    var start, ls :| RangeReply(ReplyOf(t.exchange), start, ls, t, file);
    hide *;
    RangeReplyIs(ReplyOf(t.exchange), start, ls, t, file);
    RangeOf(t, file);
    ReplyAnswers(t, start, ls, Part(file, t.start, t.end));
    PromptRequest(t, file, start, ls);
  }

  lemma RangeReplyIs(net: Net, start: seq<Byte>, ls: seq<Fields.HeaderLine>, t: Attempt, file: seq<Byte>)
    requires RangeReply(net, start, ls, t, file)
    ensures Prompt(net, start, ls, Part(file, t.start, t.end), Http.STATUS_MAPS) && Fields.HeaderKeeps(start, ls)
  {
    hide Prompt, Part, Fields.HeaderKeeps;
  }

  ghost predicate AllServed(a: seq<Attempt>, file: seq<Byte>) {
    forall i :: 0 <= i < |a| ==> RangeServed(a[i], file)
  }

  lemma {:induction false} ServedFirst(a: seq<Attempt>, file: seq<Byte>)
    requires AllServed(a, file) && a != []
    ensures RangeServed(a[0], file) && AllServed(a[1..], file)
  {
    hide RangeServed;
    assert forall k :: 0 <= k < |a| - 1 ==> a[1..][k] == a[k + 1];
  }

  /** All of such requests succeed. */
  lemma {:induction false} ServedTalk(line: Line, a: seq<Attempt>, file: seq<Byte>, i: nat)
    requires Talk(line, a) && AllServed(a, file) && AllInRange(a, |file|) && i < |a|
    requires line.left == Body.Header([]) && line.up && !line.strayed
    ensures a[i].ok && Satisfied(a[i], file)
    decreases |a|
  {
    hide *;
    TalkFirst(line, a);
    ServedFirst(a, file);
    InRangeFirst(a, |file|);
    ServedOne(a[0], file);
    if i > 0 {
      ServedTalk(a[0].after, a[1..], file, i - 1);
    }
  }

  /** Such a request for the size succeeds, and leaves a connection that is up, with nothing on it. */
  lemma {:induction false} SizeServedOk(probe: Probe, n: nat)
    requires probe.Probe? && Opened(probe) && SizeServed(probe.exchange, n)
    ensures probe.size == n
    ensures probe.ok && probe.entry.left == Body.Header([]) && probe.entry.up && !probe.entry.strayed
  {
    var net := ReplyOf(probe.exchange);
    var start, ls :| SizeReply(net, start, ls, n);
    assert probe.exchange.built && probe.exchange.sent;
    hide *;
    SizeReplyIs(net, start, ls, n);
    NotStrays(net, start, ls, []);
    OpenedAnswered(probe);
    OpenedParts(probe);
    HeadLeaves(net, start, ls, Http.STATUS_MAPS, probe.reply.opening);
    HeaderSays(false, net, start, ls, [], probe.reply.opening);
    AnnouncedSize(probe, start, ls, n);
  }

  lemma SizeReplyIs(net: Net, start: seq<Byte>, ls: seq<Fields.HeaderLine>, n: nat)
    requires SizeReply(net, start, ls, n)
    ensures Announces(ls, n) && HeadReply(net, start, ls, Http.STATUS_MAPS) && Fields.HeaderKeeps(start, ls)
    ensures Arrives(net, start, ls, [], Http.STATUS_MAPS) && net != [] && net[0] != []
    ensures |Fields.WriteHeader(start, ls)| + Numbers.ContentLength(net[0][0]) < 0x1_0000_0000
  {
    hide Arrives, Fields.HeaderKeeps, Numbers.ContentLength, Fields.WriteHeader, Announces;
  }

  lemma OpenedAnswered(probe: Probe)
    requires probe.Probe? && Opened(probe) && probe.exchange.built && probe.exchange.sent
    requires !Strays(Body.Header(ReplyOf(probe.exchange)))
    ensures probe.reply.Answered? && probe.reply.net == ReplyOf(probe.exchange)
  {
    AwaitNothing(ReplyOf(probe.exchange));
    hide FetchAll, Remains, Fetch.Found, KeepBehind, ReplyOf, Strays;
  }

  /**
   A download that is served well succeeds: with a connection, a reply to the request for the size, and prompt replies
   with the ranges asked for, all of which keep the connection, and with every event accepted, a run that does not
   resume at or behind the end of the file succeeds, and has accepted exactly the file from where it started.
   */
  lemma {:induction false} ServedRun(r: Run, before: nat, file: seq<Byte>)
    requires RunFrom(r, before) && r.probe.Probe? && SizeServed(r.probe.exchange, |file|)
    requires AllServed(r.attempts, file) && !Rejects(r.told) && !(r.resume && before >= |file|)
    ensures r.status == NX_SUCCESS && r.Size() == |file| && r.from == (if r.resume then before else 0) <= |file|
    ensures AcceptedBytes(r.told) == file[r.from..]
  {
    hide *;
    RunTalk(r, before);
    SizeServedOk(r.probe, |file|);
    SizeIsOf(r);
    forall i | 0 <= i < |r.attempts|
      ensures r.attempts[i].ok && Satisfied(r.attempts[i], file)
    {
      ServedTalk(r.probe.entry, r.attempts, file, i);
    }
    NotGivenUp(r.attempts);
    RunOutcome(r, before);
    SizeTold(r, before);
    RestartsAtZero(r, before);
    RestartsIs(r);
    OksSatisfied(r, file);
    CompleteWhole(r, before, file);
    RunGenuine(r, before, file);
    CarriesIs(r, file);
    assert file[r.from..r.to] == file[r.from..];
  }

  lemma NotGivenUp(a: seq<Attempt>)
    requires forall i :: 0 <= i < |a| ==> a[i].ok
    ensures !GaveUp(a)
  {
    assert |a| >= 3 ==> a[|a| - 1].ok;
  }

  lemma RestartsIs(r: Run)
    ensures Restarts(r) <==> !r.resume && SizeAccepted(r.told)
  {
    hide SizeAccepted;
  }

  lemma CarriesIs(r: Run, file: seq<Byte>)
    requires CarriesFile(r, file)
    ensures r.from <= r.to <= |file| && AcceptedBytes(r.told) == file[r.from..r.to]
  {
    hide AcceptedBytes;
  }

  lemma {:induction false} OksSatisfied(r: Run, file: seq<Byte>)
    requires forall i :: 0 <= i < |r.attempts| ==> r.attempts[i].ok && Satisfied(r.attempts[i], file)
    ensures AllComplete(r, file)
  {
    hide Satisfied;
    OksAll(r.attempts);
  }

  lemma {:induction false} OksAll(a: seq<Attempt>)
    requires forall i :: 0 <= i < |a| ==> a[i].ok
    ensures Oks(a) == a
  {
    if a != [] {
      OksAll(a[1..]);
    }
  }

  // ---------------------------------------------------------------- blocks that are requested one after another

  /** How the client finds the next response on a connection. */
  function OpeningAt(left: Body.View, net: Net): Body.Opening {
    if left.Header? then OpeningFor(left.net + net) else Body.Opening([], [], [])
  }

  /** A request that is built and sent, and replied to with `net`. */
  function Replied(net: Net): Exchange {
    Exchange(true, false, true, net)
  }

  /** A successful request for the block between two offsets. */
  function GotBlock(from: nat, e: nat, got: seq<Byte>, line: Line, net: Net, left: Body.View): Attempt
    requires |got| <= |line.buffer| && e > 0
  {
    Attempt(from, e - 1, true, got, line, Replied(net), Answered(net, OpeningAt(line.left, net)),
      Line(left, true, true, false, Overlay(line.buffer, got)))
  }

  /** The block's data is the beginning of what was got. */
  lemma BlockGot(from: nat, size: nat, got: seq<Byte>, line: Line, net: Net, left: Body.View, data: seq<Byte>)
    requires from < size && |data| == Next(from, size) - from <= |got| <= |line.buffer| && data == got[..|data|]
    ensures var t, told := GotBlock(from, Next(from, size), got, line, net, left), AcceptedData(from, data);
      && t.ok && t.line == line && t.start == from && MatchedAt(told, t) && IsBlock(told, from, size)
      && InRange(t, size) && t.after.left == left && t.after.up && t.after.keep && !t.after.strayed
  {
    assert Overlay(line.buffer, got)[..|data|] == data;
  }

  /** A data event that is accepted. */
  function AcceptedData(offset: nat, data: seq<Byte>): Told {
    Told(DataEvent(offset, data), true, true)
  }

  /** Replies for the blocks of a file that all come promptly, and keep the connection. */
  ghost predicate Served(file: seq<Byte>, replies: nat -> Net, starts: nat -> seq<Byte>,
      fields: nat -> seq<Fields.HeaderLine>) {
    forall o: nat :: o < |file| ==>
      && Prompt(replies(o), starts(o), fields(o), file[o..Next(o, |file|)], Http.STATUS_MAPS)
      && Fields.HeaderKeeps(starts(o), fields(o))
  }

  lemma ServedAt(file: seq<Byte>, replies: nat -> Net, starts: nat -> seq<Byte>,
      fields: nat -> seq<Fields.HeaderLine>, o: nat)
    requires Served(file, replies, starts, fields) && o < |file|
    ensures Prompt(replies(o), starts(o), fields(o), file[o..Next(o, |file|)], Http.STATUS_MAPS)
    ensures Http.NetOk(replies(o)) && Fields.HeaderKeeps(starts(o), fields(o))
  {
    hide Http.NetOk, Next, Fields.HeaderKeeps;
  }

  lemma {:induction false} MatchedFirst(ts: seq<Told>, a: seq<Attempt>)
    requires ts != [] && a != [] && a[0].ok && MatchedAt(ts[0], a[0]) && |Oks(a[1..])| == |ts[1..]|
    requires forall i :: 0 <= i < |ts[1..]| ==> MatchedAt(ts[1..][i], Oks(a[1..])[i])
    ensures |Oks(a)| == |ts| && forall i :: 0 <= i < |ts| ==> MatchedAt(ts[i], Oks(a)[i])
  {
    assert Oks(a) == [a[0]] + Oks(a[1..]);
    hide MatchedAt, Oks;
    forall i | 0 <= i < |ts|
      ensures MatchedAt(ts[i], Oks(a)[i])
    {
      if i > 0 {
        assert ts[i] == ts[1..][i - 1] && Oks(a)[i] == Oks(a[1..])[i - 1];
      }
    }
  }

  /** Requests up to the end of a file of `size` bytes, and an accepted block for each: `data` in all. */
  ghost predicate Script(line: Line, a: seq<Attempt>, ts: seq<Told>, from: nat, size: nat, data: seq<Byte>) {
    && Talk(line, a) && Steps(ts, from, size, size) && AcceptedBytes(ts) == data
    && Walks(a, from, size, size) && (a != [] ==> a[|a| - 1].ok)
    && |Oks(a)| == |ts| && forall i :: 0 <= i < |ts| ==> MatchedAt(ts[i], Oks(a)[i])
  }

  lemma NoScript(line: Line, from: nat, size: nat)
    requires from == size
    ensures Script(line, [], [], from, size, [])
  {
  }

  /** One more block in front. */
  lemma {:induction false} ScriptFirst(t: Told, a: Attempt, ts: seq<Told>, more: seq<Attempt>, size: nat,
      data: seq<Byte>)
    requires Made(a) && a.ok && MatchedAt(t, a) && IsBlock(t, a.start, size) && t.accepted && InRange(a, size)
    requires Script(a.after, more, ts, Next(a.start, size), size, data)
    ensures Script(a.line, [a] + more, [t] + ts, a.start, size, t.event.data + data)
  {
    assert ([t] + ts)[1..] == ts && ([a] + more)[1..] == more;
    assert ([a] + more)[|more|] == if more == [] then a else more[|more| - 1];
    hide Made, MatchedAt, RangeIs;
    MatchedFirst([t] + ts, [a] + more);
  }

  // ---------------------------------------------------------------- blocks that arrive as they are requested

  /** The data events of a run that gets every block of a file from an offset on, and its requests. */
  function HonestBlocks(file: seq<Byte>, from: nat): seq<Told>
    requires from <= |file|
    decreases |file| - from
  {
    if from == |file| then []
    else
      var e := Next(from, |file|);
      [AcceptedData(from, file[from..e])] + HonestBlocks(file, e)
  }

  function HonestAttempts(file: seq<Byte>, from: nat, line: Line, replies: nat -> Net): seq<Attempt>
    requires from <= |file| && |line.buffer| == BUFFER_SIZE
    decreases |file| - from
  {
    if from == |file| then []
    else
      var t := HonestAttempt(file, from, line, replies);
      [t] + HonestAttempts(file, Next(from, |file|), t.after, replies)
  }

  function HonestAttempt(file: seq<Byte>, from: nat, line: Line, replies: nat -> Net): (t: Attempt)
    requires from < |file| && |line.buffer| == BUFFER_SIZE
    ensures |t.after.buffer| == BUFFER_SIZE
  {
    var e := Next(from, |file|);
    GotBlock(from, e, file[from..e], line, replies(from), Body.Header([]))
  }

  /** Such a request may be made, and brings its block. */
  lemma {:induction false} HonestBlock(file: seq<Byte>, from: nat, line: Line, replies: nat -> Net,
      starts: nat -> seq<Byte>, fields: nat -> seq<Fields.HeaderLine>)
    requires from < |file| && Served(file, replies, starts, fields)
    requires |line.buffer| == BUFFER_SIZE && line.left == Body.Header([]) && line.up && !line.strayed
    ensures var t, e := HonestAttempt(file, from, line, replies), Next(from, |file|);
      var told := AcceptedData(from, file[from..e]);
      && Made(t) && t.ok && t.line == line && t.start == from && MatchedAt(told, t) && IsBlock(told, from, |file|)
      && InRange(t, |file|) && t.after.left == Body.Header([]) && t.after.up && !t.after.strayed
  {
    var e, t, net := Next(from, |file|), HonestAttempt(file, from, line, replies), replies(from);
    var body := file[from..e];
    assert t == GotBlock(from, e, body, line, net, Body.Header([])) && body == body[..|body|];
    assert t.reply == Answered(net, OpeningFor([] + net));
    assert [] + net == net == net + [];
    hide *;
    BlockGot(from, |file|, body, line, net, Body.Header([]), body);
    ServedAt(file, replies, starts, fields, from);
    NothingOk();
    AwaitNothing(net);
    GotIsBlock(from, e, body, line, net, Body.Header([]));
    GotExchanged(from, e, body, line, net, Body.Header([]));
    MadePrompt(t, net, starts(from), fields(from), body, []);
  }

  lemma GotIsBlock(from: nat, e: nat, got: seq<Byte>, line: Line, net: Net, left: Body.View)
    requires |got| <= |line.buffer| && e > 0
    ensures var t := GotBlock(from, e, got, line, net, left);
      && t.reply.Answered? && t.reply.net == net && t.reply.opening == OpeningAt(line.left, net) && t.got == got
      && t.ok && t.line == line && t.after == Line(left, true, true, false, Overlay(line.buffer, got))
  {
  }

  lemma GotExchanged(from: nat, e: nat, got: seq<Byte>, line: Line, net: Net, left: Body.View)
    requires |got| <= |line.buffer| == BUFFER_SIZE && e > 0 && line.up && !line.strayed && Http.NetOk(net)
    ensures Exchanged(GotBlock(from, e, got, line, net, left))
  {
    hide Http.NetOk, Overlay;
  }

  lemma {:induction false} HonestSteps(file: seq<Byte>, from: nat, line: Line, replies: nat -> Net,
      starts: nat -> seq<Byte>, fields: nat -> seq<Fields.HeaderLine>)
    requires from <= |file| && Served(file, replies, starts, fields)
    requires |line.buffer| == BUFFER_SIZE && line.left == Body.Header([]) && line.up && !line.strayed
    ensures var ts, a := HonestBlocks(file, from), HonestAttempts(file, from, line, replies);
      Script(line, a, ts, from, |file|, file[from..])
    decreases |file| - from
  {
    hide Served, Made, GotBlock, MatchedAt, IsBlock, Script;
    if from == |file| {
      assert file[from..] == [];
      NoScript(line, from, |file|);
    } else {
      var e, t := Next(from, |file|), HonestAttempt(file, from, line, replies);
      var told := AcceptedData(from, file[from..e]);
      HonestBlock(file, from, line, replies, starts, fields);
      HonestSteps(file, e, t.after, replies, starts, fields);
      assert file[from..] == file[from..e] + file[e..];
      hide *;
      ScriptFirst(told, t, HonestBlocks(file, e), HonestAttempts(file, e, t.after, replies), |file|, file[e..]);
    }
  }

  lemma NothingOk()
    ensures Http.NetOk([])
  {
  }

  // ---------------------------------------------------------------- runs that go wrong

  /** A run that tells of the size and then of accepted blocks up to the end. */
  function Finished(resume: bool, from: nat, ts: seq<Told>, probe: Probe, a: seq<Attempt>): Run {
    var n := SizeOf(probe);
    Run(resume, from, n, NX_SUCCESS, [Told(FileSizeEvent(n), true, true)] + ts, probe, a)
  }

  /** A connection whose request for the size was a success, says `n`, and leaves nothing. */
  ghost predicate Ready(probe: Probe, n: nat) {
    && probe.Probe? && probe.ok && Opened(probe) && probe.entry.left == Body.Header([]) && probe.size == n
    && probe.entry.up && !probe.entry.strayed && |probe.entry.buffer| == BUFFER_SIZE
  }

  lemma {:induction false} FinishedRun(size: nat, resume: bool, from: nat, ts: seq<Told>, probe: Probe,
      a: seq<Attempt>, data: seq<Byte>)
    requires from < size && (from > 0 ==> resume) && Ready(probe, size) && Script(probe.entry, a, ts, from, size, data)
    ensures var r := Finished(resume, from, ts, probe, a);
      RunFrom(r, from) && AcceptedBytes(r.told) == data && r.Size() == size
  {
    ReadyIs(probe, size);
    ScriptIs(probe.entry, a, ts, from, size, data);
    hide *;
    SizeFirst(ts, a, size);
    FinishedIs(size, resume, from, ts, probe, a);
  }

  lemma ReadyIs(probe: Probe, n: nat)
    requires Ready(probe, n)
    ensures probe.Probe? && probe.ok && Opened(probe) && probe.entry.left == Body.Header([]) && probe.size == n
    ensures probe.entry.up && !probe.entry.strayed && |probe.entry.buffer| == BUFFER_SIZE
  {
    hide Opened;
  }

  lemma ScriptIs(line: Line, a: seq<Attempt>, ts: seq<Told>, from: nat, size: nat, data: seq<Byte>)
    requires Script(line, a, ts, from, size, data)
    ensures Talk(line, a) && Steps(ts, from, size, size) && Walks(a, from, size, size) && (a != [] ==> a[|a| - 1].ok)
    ensures |Oks(a)| == |ts| && forall i :: 0 <= i < |ts| ==> MatchedAt(ts[i], Oks(a)[i])
    ensures AcceptedBytes(ts) == data && (from != size ==> ts != [] && a != [])
  {
    assert a == [] ==> Oks(a) == [];
    hide Talk, MatchedAt, AcceptedBytes;
  }

  lemma {:induction false} SizeFirst(ts: seq<Told>, a: seq<Attempt>, n: nat)
    requires |Oks(a)| == |ts| && forall i :: 0 <= i < |ts| ==> MatchedAt(ts[i], Oks(a)[i])
    ensures var all := [Told(FileSizeEvent(n), true, true)] + ts;
      all[1..] == ts && AcceptedBytes(all) == AcceptedBytes(ts) && Matched(all, a)
  {
    var all := [Told(FileSizeEvent(n), true, true)] + ts;
    assert all[1..] == ts;
    hide MatchedAt, Oks;
    assert AcceptedBytes(all) == [] + AcceptedBytes(ts);
    forall i | 0 <= i < |ts|
      ensures MatchedAt(all[i + 1], Oks(a)[i])
    {
      assert all[i + 1] == ts[i];
    }
  }

  lemma FinishedIs(size: nat, resume: bool, from: nat, ts: seq<Told>, probe: Probe, a: seq<Attempt>)
    requires from < size && (from > 0 ==> resume) && ts != [] && a != [] && a[|a| - 1].ok
    requires probe.Probe? && probe.ok && Opened(probe) && Talk(probe.entry, a) && probe.size == size
    requires Steps(ts, from, size, size) && Walks(a, from, size, size)
    requires var told := [Told(FileSizeEvent(size), true, true)] + ts; told[1..] == ts && Matched(told, a)
    ensures var r := Finished(resume, from, ts, probe, a);
      RunFrom(r, from) && r.told == [Told(FileSizeEvent(size), true, true)] + ts && r.Size() == size
  {
    hide Opened, Talk, Matched, Steps, Walks;
  }

  /**
   The header of a range's response arrives in a packet of its own, and the fetch is a success without any bytes: the
   run succeeds, and what it accepts is what the buffer held before.
   */
  lemma {:induction false} StaleBlock(file: seq<Byte>, start: seq<Byte>, ls: seq<Fields.HeaderLine>, probe: Probe)
    requires 0 < |file| <= BUFFER_SIZE && Ready(probe, |file|) && probe.entry.buffer[..|file|] != file
    requires Replies([[Fields.WriteHeader(start, ls)], [file]], start, ls, file, Http.STATUS_MAPS)
    ensures var t := AloneAttempt(probe.entry, file, start, ls);
      var r := Finished(false, 0, [AloneTold(probe.entry.buffer, |file|)], probe, [t]);
      RunFrom(r, 0) && AcceptedBytes(r.told) == probe.entry.buffer[..|file|] != file
  {
    hide *;
    FirstOfOne(file);
    ReadyIs(probe, |file|);
    var entry := probe.entry;
    var t, a, data := AloneTold(entry.buffer, |file|), AloneAttempt(entry, file, start, ls), entry.buffer[..|file|];
    AloneMade(file, start, ls, entry);
    AloneIs(file, |file|, start, ls, entry);
    NoScript(a.after, |file|, |file|);
    assert data + [] == data && [a] + [] == [a] && [t] + [] == [t];
    ScriptFirst(t, a, [], [], |file|, []);
    FinishedRun(|file|, false, 0, [t], probe, [a], data);
  }

  /** Such a request brings the first block of a file, as the buffer has it. */
  lemma AloneIs(body: seq<Byte>, size: nat, start: seq<Byte>, ls: seq<Fields.HeaderLine>, line: Line)
    requires body != [] && |body| == Next(0, size) && |line.buffer| == BUFFER_SIZE
    ensures var t, a := AloneTold(line.buffer, |body|), AloneAttempt(line, body, start, ls);
      && MatchedAt(t, a) && IsBlock(t, 0, size) && InRange(a, size) && t.accepted && a.ok && a.start == 0
      && t.event.data == line.buffer[..|body|] && a.line == line
      && a.after == line.(left := Body.Fixed(|body|, [[body]]), keep := Fields.HeaderKeeps(start, ls))
  {
    hide Fields.HeaderKeeps, Fields.WriteHeader;
  }

  /** The first block of a file, as the buffer has it. */
  function AloneTold(buffer: seq<Byte>, n: nat): Told
    requires n <= |buffer|
  {
    AcceptedData(0, buffer[..n])
  }

  /** The request for it, whose response's header arrives alone. */
  ghost function AloneAttempt(line: Line, body: seq<Byte>, start: seq<Byte>, ls: seq<Fields.HeaderLine>): Attempt
    requires body != []
  {
    var net := [[Fields.WriteHeader(start, ls)], [body]];
    Attempt(0, |body| - 1, true, [], line, Replied(net), Answered(net, OpeningFor(net)),
      line.(left := Body.Fixed(|body|, [[body]]), keep := Fields.HeaderKeeps(start, ls)))
  }

  lemma {:induction false} AloneMade(body: seq<Byte>, start: seq<Byte>, ls: seq<Fields.HeaderLine>, line: Line)
    requires body != [] && line.up && !line.strayed && line.left == Body.Header([])
    requires |line.buffer| == BUFFER_SIZE
    requires Replies([[Fields.WriteHeader(start, ls)], [body]], start, ls, body, Http.STATUS_MAPS)
    ensures Made(AloneAttempt(line, body, start, ls))
  {
    var h := Fields.WriteHeader(start, ls);
    var net := [[h], [body]];
    assert Flatten([h]) == h + Flatten([]) == h && net[1..] == [[body]];
    assert Http.NetOk(net) by {
      assert Arrives(net, start, ls, body, Http.STATUS_MAPS);
    }
    hide Replies, Fields.WriteHeader, Made, Http.NetOk, Fields.HeaderKeeps;
    assert Exchanged(AloneAttempt(line, body, start, ls));
    MadeAlone(AloneAttempt(line, body, start, ls), start, ls, body);
  }

  // ---------------------------------------------------------------- blocks that arrive one request late

  /**
   The data events behind a first block that never arrived, and the requests: each one gets the block before its own.
   */
  function LateBlocks(file: seq<Byte>, from: nat): seq<Told>
    requires BUFFER_SIZE <= from <= |file|
    decreases |file| - from
  {
    if from == |file| then []
    else
      var e := Next(from, |file|);
      [AcceptedData(from, file[from - BUFFER_SIZE..e - BUFFER_SIZE])] + LateBlocks(file, e)
  }

  function LateAttempts(file: seq<Byte>, from: nat, line: Line, replies: nat -> Net): seq<Attempt>
    requires BUFFER_SIZE <= from <= |file| && |line.buffer| == BUFFER_SIZE
    decreases |file| - from
  {
    if from == |file| then []
    else
      var e := Next(from, |file|);
      var t := LateAttempt(file, from, line, replies);
      [t] + LateAttempts(file, e, t.after, replies)
  }

  function LateAttempt(file: seq<Byte>, from: nat, line: Line, replies: nat -> Net): (t: Attempt)
    requires BUFFER_SIZE <= from < |file| && |line.buffer| == BUFFER_SIZE
    ensures |t.after.buffer| == BUFFER_SIZE
  {
    GotBlock(from, Next(from, |file|), file[from - BUFFER_SIZE..from], line, replies(from),
      Body.Header(replies(from)))
  }

  /** What the connection has left before a request: the body of the first block, or the reply to the request before. */
  ghost predicate Behind(file: seq<Byte>, from: nat, left: Body.View, replies: nat -> Net)
    requires BUFFER_SIZE <= from <= |file|
  {
    if from == BUFFER_SIZE then left == Body.Fixed(BUFFER_SIZE, [[file[..BUFFER_SIZE]]])
    else left == Body.Header(replies(from - BUFFER_SIZE)) && from % BUFFER_SIZE == 0
  }

  /** Such a request may be made, and brings the block before its own. */
  lemma {:induction false} LateBlock(file: seq<Byte>, from: nat, line: Line, replies: nat -> Net,
      starts: nat -> seq<Byte>, fields: nat -> seq<Fields.HeaderLine>)
    requires BUFFER_SIZE <= from < |file| && Served(file, replies, starts, fields)
    requires Behind(file, from, line.left, replies) && |line.buffer| == BUFFER_SIZE && line.up && !line.strayed
    requires line.keep
    ensures var t, e := LateAttempt(file, from, line, replies), Next(from, |file|);
      var told := AcceptedData(from, file[from - BUFFER_SIZE..e - BUFFER_SIZE]);
      && Made(t) && t.ok && t.line == line && t.start == from && MatchedAt(told, t) && IsBlock(told, from, |file|)
      && InRange(t, |file|) && t.after.up && t.after.keep && !t.after.strayed
      && (e < |file| ==> Behind(file, e, t.after.left, replies))
  {
    hide *;
    var e, prev := Next(from, |file|), from - BUFFER_SIZE;
    var got, data := file[prev..from], file[prev..e - BUFFER_SIZE];
    LateIs(file, from, line, replies);
    LateMade(file, from, line, replies, starts, fields);
    BehindNext(file, from, line.left, replies);
    BlockGot(from, |file|, got, line, replies(from), Body.Header(replies(from)), data);
  }

  lemma LateIs(file: seq<Byte>, from: nat, line: Line, replies: nat -> Net)
    requires BUFFER_SIZE <= from < |file| && |line.buffer| == BUFFER_SIZE
    ensures var e, prev := Next(from, |file|), from - BUFFER_SIZE;
      var got, data := file[prev..from], file[prev..e - BUFFER_SIZE];
      && LateAttempt(file, from, line, replies)
           == GotBlock(from, e, got, line, replies(from), Body.Header(replies(from)))
      && |data| == e - from <= |got| == BUFFER_SIZE && data == got[..|data|]
  {
    hide GotBlock;
  }

  lemma {:induction false} LateMade(file: seq<Byte>, from: nat, line: Line, replies: nat -> Net,
      starts: nat -> seq<Byte>, fields: nat -> seq<Fields.HeaderLine>)
    requires BUFFER_SIZE <= from < |file| && Served(file, replies, starts, fields)
    requires Behind(file, from, line.left, replies) && |line.buffer| == BUFFER_SIZE && line.up && !line.strayed
    requires line.keep
    ensures Made(LateAttempt(file, from, line, replies))
  {
    hide *;
    BehindNext(file, from, line.left, replies);
    if from == BUFFER_SIZE {
      LateFirst(file, line, replies, starts, fields);
    } else {
      LateMore(file, from, line, replies, starts, fields);
    }
  }

  lemma BehindNext(file: seq<Byte>, from: nat, left: Body.View, replies: nat -> Net)
    requires BUFFER_SIZE <= from < |file| && Behind(file, from, left, replies)
    ensures from == BUFFER_SIZE ==> left == Body.Fixed(BUFFER_SIZE, [[file[..BUFFER_SIZE]]])
    ensures from != BUFFER_SIZE ==>
      from >= 2 * BUFFER_SIZE && left == Body.Header(replies(from - BUFFER_SIZE))
    ensures var e := Next(from, |file|);
      e < |file| ==> Behind(file, e, Body.Header(replies(from)), replies)
  {
  }

  lemma {:induction false} LateFirst(file: seq<Byte>, line: Line, replies: nat -> Net,
      starts: nat -> seq<Byte>, fields: nat -> seq<Fields.HeaderLine>)
    requires BUFFER_SIZE < |file| && Served(file, replies, starts, fields)
    requires line.left == Body.Fixed(BUFFER_SIZE, [[file[..BUFFER_SIZE]]])
    requires |line.buffer| == BUFFER_SIZE && line.up && !line.strayed && line.keep
    ensures Made(LateAttempt(file, BUFFER_SIZE, line, replies))
  {
    var t := LateAttempt(file, BUFFER_SIZE, line, replies);
    assert t.got == file[0..BUFFER_SIZE] == file[..BUFFER_SIZE];
    assert t.reply == Answered(replies(BUFFER_SIZE), Body.Opening([], [], []));
    assert t.ok && t.line == line;
    assert t.after == Line(Body.Header(replies(BUFFER_SIZE)), true, true, false, Overlay(line.buffer, t.got));
    hide *;
    ServedAt(file, replies, starts, fields, BUFFER_SIZE);
    OneChain(file[..BUFFER_SIZE]);
    LateExchanged(file, BUFFER_SIZE, line, replies);
    MadePending(t);
  }

  lemma {:induction false} LateMore(file: seq<Byte>, from: nat, line: Line, replies: nat -> Net,
      starts: nat -> seq<Byte>, fields: nat -> seq<Fields.HeaderLine>)
    requires 2 * BUFFER_SIZE <= from < |file| && Served(file, replies, starts, fields)
    requires line.left == Body.Header(replies(from - BUFFER_SIZE))
    requires |line.buffer| == BUFFER_SIZE && line.up && !line.strayed
    ensures Made(LateAttempt(file, from, line, replies))
  {
    var t, prev := LateAttempt(file, from, line, replies), from - BUFFER_SIZE;
    var net, more := replies(prev), replies(from);
    assert Next(prev, |file|) == from && t.got == file[prev..from] && t.ok && t.line == line;
    assert t.reply == Answered(more, OpeningFor(net + more));
    assert t.after == Line(Body.Header(more), true, true, false, Overlay(line.buffer, t.got));
    AwaitBehindHeader(net, more);
    hide *;
    ServedAt(file, replies, starts, fields, from);
    ServedAt(file, replies, starts, fields, prev);
    LateExchanged(file, from, line, replies);
    MadePrompt(t, net, starts(prev), fields(prev), file[prev..from], more);
  }

  lemma LateExchanged(file: seq<Byte>, from: nat, line: Line, replies: nat -> Net)
    requires BUFFER_SIZE <= from < |file| && |line.buffer| == BUFFER_SIZE && line.up && !line.strayed
    requires Http.NetOk(replies(from))
    ensures Exchanged(LateAttempt(file, from, line, replies))
  {
    hide Http.NetOk, Overlay;
  }

  lemma OneChain(body: seq<Byte>)
    requires body != []
    ensures Http.NetBytes([[body]]) == body && AllFull([[body]])
  {
    assert [[body]][1..] == [] && [body][1..] == [];
    assert Flatten([body]) == body + Flatten([]) == body;
    assert Http.NetBytes([[body]]) == Flatten([body]) + Http.NetBytes([]) == body;
  }

  lemma {:induction false} LateSteps(file: seq<Byte>, from: nat, line: Line, replies: nat -> Net,
      starts: nat -> seq<Byte>, fields: nat -> seq<Fields.HeaderLine>)
    requires BUFFER_SIZE <= from <= |file| && Served(file, replies, starts, fields)
    requires from < |file| ==> Behind(file, from, line.left, replies)
    requires |line.buffer| == BUFFER_SIZE && line.up && line.keep && !line.strayed
    ensures var ts, a := LateBlocks(file, from), LateAttempts(file, from, line, replies);
      Script(line, a, ts, from, |file|, file[from - BUFFER_SIZE..|file| - BUFFER_SIZE])
    decreases |file| - from
  {
    hide Served, Made, GotBlock, MatchedAt, IsBlock, Script, Behind;
    var prev, n := from - BUFFER_SIZE, |file| - BUFFER_SIZE;
    if from == |file| {
      assert file[prev..n] == [];
      NoScript(line, from, |file|);
    } else {
      var e, t := Next(from, |file|), LateAttempt(file, from, line, replies);
      var told := AcceptedData(from, file[prev..e - BUFFER_SIZE]);
      LateBlock(file, from, line, replies, starts, fields);
      LateSteps(file, e, t.after, replies, starts, fields);
      assert file[prev..n] == file[prev..e - BUFFER_SIZE] + file[e - BUFFER_SIZE..n];
      hide *;
      ScriptFirst(told, t, LateBlocks(file, e), LateAttempts(file, e, t.after, replies), |file|,
        file[e - BUFFER_SIZE..n]);
    }
  }

  /**
   The header of the first block's response arrives in a packet of its own, and every other response promptly: the run
   succeeds, every request being taken for a success, and what it accepts is what the buffer held before, and then the
   file without its end. Every block is the one before it.
   */
  lemma {:induction false} ShiftedRun(file: seq<Byte>, start: seq<Byte>, ls: seq<Fields.HeaderLine>, probe: Probe,
      replies: nat -> Net, starts: nat -> seq<Byte>, fields: nat -> seq<Fields.HeaderLine>)
    requires |file| > BUFFER_SIZE && Served(file, replies, starts, fields) && Ready(probe, |file|)
    requires Fields.HeaderKeeps(start, ls)
    requires var first := file[..BUFFER_SIZE];
      Replies([[Fields.WriteHeader(start, ls)], [first]], start, ls, first, Http.STATUS_MAPS)
    ensures var first := AloneAttempt(probe.entry, file[..BUFFER_SIZE], start, ls);
      var ts := [AloneTold(probe.entry.buffer, BUFFER_SIZE)] + LateBlocks(file, BUFFER_SIZE);
      var a := [first] + LateAttempts(file, BUFFER_SIZE, first.after, replies);
      var r := Finished(false, 0, ts, probe, a);
      RunFrom(r, 0) && AcceptedBytes(r.told) == probe.entry.buffer + file[..|file| - BUFFER_SIZE]
  {
    hide *;
    var n := BUFFER_SIZE;
    var body := file[..n];
    FirstOfMany(file);
    ReadyIs(probe, |file|);
    var entry := probe.entry;
    assert entry.buffer[..n] == entry.buffer;
    var first, told, late := AloneAttempt(entry, body, start, ls), AloneTold(entry.buffer, n), LateBlocks(file, n);
    AloneMade(body, start, ls, entry);
    AloneIs(body, |file|, start, ls, entry);
    BehindAlone(file, first.after.left, replies);
    var a := LateAttempts(file, n, first.after, replies);
    LateSteps(file, n, first.after, replies, starts, fields);
    ScriptFirst(told, first, late, a, |file|, file[..|file| - n]);
    FinishedRun(|file|, false, 0, [told] + late, probe, [first] + a, entry.buffer + file[..|file| - n]);
  }

  lemma FirstOfOne(file: seq<Byte>)
    requires |file| <= BUFFER_SIZE
    ensures Next(0, |file|) == |file|
  {
  }

  lemma FirstOfMany(file: seq<Byte>)
    requires |file| > BUFFER_SIZE
    ensures Next(0, |file|) == BUFFER_SIZE
    ensures file[BUFFER_SIZE - BUFFER_SIZE..|file| - BUFFER_SIZE] == file[..|file| - BUFFER_SIZE]
  {
  }

  lemma BehindAlone(file: seq<Byte>, left: Body.View, replies: nat -> Net)
    requires BUFFER_SIZE < |file| && left == Body.Fixed(BUFFER_SIZE, [[file[..BUFFER_SIZE]]])
    ensures Behind(file, BUFFER_SIZE, left, replies)
  {
  }

  // ---------------------------------------------------------------- runs that resume one another

  /** Where the counter stands after runs that found it at `received`. */
  function Counter(runs: seq<Run>, received: nat): nat {
    if runs == [] then received else runs[|runs| - 1].to
  }

  /** Any runs, one after the other. */
  ghost predicate Chained(runs: seq<Run>, received: nat) {
    runs != [] ==>
      var init, last := runs[..|runs| - 1], runs[|runs| - 1];
      Chained(init, received) && RunFrom(last, Counter(init, received))
  }

  /** The data that was accepted since a run last started over. */
  function Kept(runs: seq<Run>): seq<Byte> {
    if runs == [] then []
    else
      var init, last := runs[..|runs| - 1], runs[|runs| - 1];
      (if Restarts(last) then [] else Kept(init)) + AcceptedBytes(last.told)
  }

  /** Whether every run since one last started over accepted a file's bytes. */
  ghost predicate Carried(runs: seq<Run>, file: seq<Byte>) {
    runs != [] ==>
      var init, last := runs[..|runs| - 1], runs[|runs| - 1];
      CarriesFile(last, file) && (Restarts(last) || Carried(init, file))
  }

  /** Where the runs have the file from. */
  function Start(runs: seq<Run>, received: nat): nat {
    if exists i :: 0 <= i < |runs| && Restarts(runs[i]) then 0 else received
  }

  lemma StartStep(runs: seq<Run>, received: nat)
    requires runs != []
    ensures var init, last := runs[..|runs| - 1], runs[|runs| - 1];
      Start(runs, received) == if Restarts(last) then 0 else Start(init, received)
  {
    hide Restarts;
    var init, last := runs[..|runs| - 1], runs[|runs| - 1];
    if i :| 0 <= i < |init| && Restarts(init[i]) {
      assert runs[i] == init[i];
    } else if Restarts(last) {
      assert runs[|runs| - 1] == last;
    } else {
      assert forall i :: 0 <= i < |runs| ==> runs[i] == if i < |init| then init[i] else last;
    }
  }

  lemma RestartsAtZero(r: Run, before: nat)
    requires RunFrom(r, before)
    ensures r.from == if Restarts(r) then 0 else before
    ensures r.status == NX_SUCCESS ==> r.from <= r.Size() == r.to
  {
  }

  /**
   Resuming neither loses nor repeats: after any runs, resumed or not, failed, aborted or successful, the data accepted
   since the last start over is as long as the way from that start to the counter.
   */
  lemma {:induction false} RunsTile(runs: seq<Run>, received: nat)
    requires Chained(runs, received)
    ensures Start(runs, received) <= Counter(runs, received)
    ensures |Kept(runs)| == Counter(runs, received) - Start(runs, received)
    ensures runs != [] && runs[|runs| - 1].status == NX_SUCCESS ==>
      Counter(runs, received) == runs[|runs| - 1].Size()
  {
    hide Restarts, RunFrom, Start;
    if runs == [] {
      NoStart(received);
    } else {
      var init, last := runs[..|runs| - 1], runs[|runs| - 1];
      RunsTile(init, received);
      StartStep(runs, received);
      RunTiles(last, Counter(init, received));
      RestartsAtZero(last, Counter(init, received));
    }
  }

  lemma NoStart(received: nat)
    ensures Start([], received) == received
  {
  }

  /** That data is the part of a file that it stands for if and only if every one of those runs accepted its bytes. */
  lemma {:induction false} RunsCarry(runs: seq<Run>, received: nat, file: seq<Byte>)
    requires Chained(runs, received) && Counter(runs, received) <= |file|
    ensures Start(runs, received) <= Counter(runs, received)
    ensures Kept(runs) == file[Start(runs, received)..Counter(runs, received)] <==> Carried(runs, file)
  {
    hide Restarts, RunFrom, Start;
    RunsTile(runs, received);
    if runs == [] {
      NoStart(received);
    } else {
      var init, last := runs[..|runs| - 1], runs[|runs| - 1];
      var from, mid, to := Start(runs, received), Counter(init, received), last.to;
      StartStep(runs, received);
      RunTiles(last, mid);
      RestartsAtZero(last, mid);
      if Restarts(last) {
        assert [] + AcceptedBytes(last.told) == AcceptedBytes(last.told);
      } else {
        RunsCarry(init, received, file);
        RunsTile(init, received);
        PartsOf(Kept(init), AcceptedBytes(last.told), file, from, mid, to);
      }
    }
  }

  lemma PartsOf(a: seq<Byte>, b: seq<Byte>, file: seq<Byte>, from: nat, mid: nat, to: nat)
    requires from <= mid <= to <= |file| && |a| == mid - from
    ensures a + b == file[from..to] <==> a == file[from..mid] && b == file[mid..to]
  {
    SameParts(a, b, file[from..mid], file[mid..to]);
    assert file[from..to] == file[from..mid] + file[mid..to];
  }

  /**
   When a run succeeds, the data kept is the whole file that it was served if and only if the counter was at zero in the
   beginning or some run started over since, and every run since then accepted the file's bytes.
   */
  lemma {:induction false} WholeFile(runs: seq<Run>, received: nat, file: seq<Byte>)
    requires Chained(runs, received) && runs != [] && runs[|runs| - 1].status == NX_SUCCESS
    requires runs[|runs| - 1].Size() == |file|
    ensures Kept(runs) == file
        <==> (received == 0 || exists i :: 0 <= i < |runs| && Restarts(runs[i])) && Carried(runs, file)
  {
    RunsTile(runs, received);
    RunsCarry(runs, received, file);
    hide Chained, Kept, Carried, Restarts;
    var from := Start(runs, received);
    assert from == 0 ==> file[from..|file|] == file;
  }

  /**
   Runs on one file accept its bytes if every block was answered completely, with nothing left of earlier responses.
   */
  lemma {:induction false} HonestRuns(runs: seq<Run>, received: nat, file: seq<Byte>)
    requires Chained(runs, received) && Counter(runs, received) <= |file|
    requires forall i :: 0 <= i < |runs| ==> runs[i].Size() == |file| && AllComplete(runs[i], file)
    ensures Carried(runs, file)
  {
    hide AllWhole, AllComplete, RunFrom, CarriesFile, Restarts, SizeOf;
    if runs != [] {
      var init, last := runs[..|runs| - 1], runs[|runs| - 1];
      assert last.Size() == |file| && AllComplete(last, file);
      CompleteWhole(last, Counter(init, received), file);
      RunGenuine(last, Counter(init, received), file);
      RunTiles(last, Counter(init, received));
      RestartsAtZero(last, Counter(init, received));
      if !Restarts(last) {
        HonestRuns(init, received, file);
      }
    }
  }

  function AllTold(runs: seq<Run>): seq<Told> {
    if runs == [] then [] else AllTold(runs[..|runs| - 1]) + runs[|runs| - 1].told
  }

  /** Where every run but the first resumes, everything that was accepted is kept. */
  lemma {:induction false} ResumedKeepAll(runs: seq<Run>)
    requires forall i :: 1 <= i < |runs| ==> runs[i].resume
    ensures Kept(runs) == AcceptedBytes(AllTold(runs))
  {
    if runs != [] {
      var init, last := runs[..|runs| - 1], runs[|runs| - 1];
      ResumedKeepAll(init);
      AcceptedAppend(AllTold(init), last.told);
      assert init == [] ==> Kept(init) == [];
    }
  }

  /**
   A download and the runs that resume it until one succeeds: all that was accepted is the file if and only if the
   counter was at zero in the beginning, or the first run was not to resume and had the size accepted, and every run
   accepted the file's bytes.
   */
  lemma {:induction false} ResumedFile(runs: seq<Run>, received: nat, file: seq<Byte>)
    requires Chained(runs, received) && runs != [] && runs[|runs| - 1].status == NX_SUCCESS
    requires runs[|runs| - 1].Size() == |file| && forall i :: 1 <= i < |runs| ==> runs[i].resume
    ensures AcceptedBytes(AllTold(runs)) == file <==> (received == 0 || Restarts(runs[0])) && Carried(runs, file)
  {
    hide Chained, Kept, Carried, AllTold, AcceptedBytes;
    ResumedKeepAll(runs);
    WholeFile(runs, received, file);
  }

  /**
   How the beginning of a file gets lost: an earlier run left the counter inside the file, a download that is not to
   resume fails before it knows the size, and the run that resumes it succeeds without the beginning of the file.
   */
  lemma {:induction false} StaleCounter(file: seq<Byte>, received: nat, code: nat, probe: Probe,
      replies: nat -> Net, starts: nat -> seq<Byte>, fields: nat -> seq<Fields.HeaderLine>)
    requires 0 < received < |file| && Served(file, replies, starts, fields) && Ready(probe, |file|)
    ensures var failed := Run(false, received, received, Failure(code), [], NotConnected, []);
      var ts, a := HonestBlocks(file, received), HonestAttempts(file, received, probe.entry, replies);
      var resumed := Finished(true, received, ts, probe, a);
      Chained([failed, resumed], received) && AcceptedBytes(AllTold([failed, resumed])) == file[received..] != file
  {
    var failed := Run(false, received, received, Failure(code), [], NotConnected, []);
    var ts, a := HonestBlocks(file, received), HonestAttempts(file, received, probe.entry, replies);
    var resumed := Finished(true, received, ts, probe, a);
    FailedAtOnce(received, code);
    assert |file[received..]| < |file|;
    assert resumed.from == received && failed.told == [] && failed.to == received;
    hide *;
    HonestSteps(file, received, probe.entry, replies, starts, fields);
    FinishedRun(|file|, true, received, ts, probe, a, file[received..]);
    StalePair(failed, resumed, received);
  }

  lemma FailedAtOnce(received: nat, code: nat)
    ensures RunFrom(Run(false, received, received, Failure(code), [], NotConnected, []), received)
  {
  }

  lemma {:induction false} StalePair(failed: Run, resumed: Run, received: nat)
    requires RunFrom(failed, received) && RunFrom(resumed, received) && failed.to == received && failed.told == []
    ensures var runs := [failed, resumed];
      Chained(runs, received) && AcceptedBytes(AllTold(runs)) == AcceptedBytes(resumed.told)
  {
    hide RunFrom;
    var runs := [failed, resumed];
    assert runs[..1] == [failed] && [failed][..0] == [];
    assert Chained([failed], received);
    assert AllTold(runs) == AllTold([failed]) + resumed.told && AllTold([failed]) == [] + [] == [];
    assert [] + resumed.told == resumed.told;
  }

  /** What happened to the requests of runs, and which of them had a connection. */
  function AllExchanges(runs: seq<Run>): seq<Exchange> {
    if runs == [] then []
    else
      var last := runs[|runs| - 1];
      AllExchanges(runs[..|runs| - 1]) + RunExchanges(last.probe, last.attempts)
  }

  function AllConnections(runs: seq<Run>): seq<bool> {
    if runs == [] then [] else AllConnections(runs[..|runs| - 1]) + [runs[|runs| - 1].probe.Probe?]
  }

  /** Downloads from an updater that has done nothing else since it was made, or since `was`. */
  ghost predicate Downloading(u: Updater, was: Trace, connections: seq<bool>, received: nat, runs: seq<Run>,
      told: seq<Told>)
    reads u
  {
    && u.eventCb == NoHandler && Recorded(u)
    && Chained(runs, received) && u.fileBytesReceived == Counter(runs, received)
    && u.events == was.told + told && AcceptedBytes(told) == AcceptedBytes(AllTold(runs))
    && u.exchanges == was.exchanges + AllExchanges(runs) && u.connections == connections + AllConnections(runs)
  }

  /** Downloads again and again; each time either starting over or resuming. */
  method Downloads(u: Updater, callback: Handler, resumes: seq<bool>)
    returns (ghost runs: seq<Run>, ghost told: seq<Told>)
    requires u.buffer.Length == BUFFER_SIZE && u.eventCb == NoHandler && callback != NoHandler && Recorded(u)
    modifies u, u.buffer
    ensures |runs| == |resumes|
    ensures forall i :: 0 <= i < |runs| ==> runs[i].resume == resumes[i]
    ensures Downloading(u, old(TraceOf(u)), old(u.connections), old(u.fileBytesReceived), runs, told)
  {
    hide *;
    ghost var received, was, connections := u.fileBytesReceived, TraceOf(u), u.connections;
    runs, told := [], [];
    NothingDownloaded(u);
    for i := 0 to |resumes|
      invariant |runs| == i && forall k :: 0 <= k < i ==> runs[k].resume == resumes[k]
      invariant Downloading(u, was, connections, received, runs, told)
    {
      DownloadingIdle(u, was, connections, received, runs, told);
      ghost var events := u.events;
      ghost var ran, r, cs;
      var status;
      status, ran, r, cs := IotcDownload(u, true, callback, resumes[i]);
      DownloadedRun(u, callback, Counter(runs, received), r, cs);
      OneMoreRun(u, was, connections, received, runs, r, told, status, events);
      runs, told := runs + [r], told + r.told + [u.events[|u.events| - 1]];
    }
  }

  lemma {:induction false} NothingDownloaded(u: Updater)
    requires u.eventCb == NoHandler && Recorded(u)
    ensures Downloading(u, TraceOf(u), u.connections, u.fileBytesReceived, [], [])
  {
    assert u.events + [] == u.events && u.exchanges + [] == u.exchanges && u.connections + [] == u.connections;
    hide Recorded;
  }

  lemma {:induction false} DownloadingIdle(u: Updater, was: Trace, connections: seq<bool>, received: nat,
      runs: seq<Run>, told: seq<Told>)
    requires Downloading(u, was, connections, received, runs, told)
    ensures u.eventCb == NoHandler && Recorded(u) && Chained(runs, received)
    ensures u.fileBytesReceived == Counter(runs, received)
    ensures u.events == was.told + told && AcceptedBytes(told) == AcceptedBytes(AllTold(runs))
    ensures u.exchanges == was.exchanges + AllExchanges(runs) && u.connections == connections + AllConnections(runs)
  {
    hide Recorded, Chained, AcceptedBytes, AllTold, AllExchanges, AllConnections;
  }

  lemma DownloadedRun(u: Updater, cb: Handler, before: nat, r: Run, cs: seq<Driven>)
    requires Downloaded(u, cb, before, r, cs)
    ensures RunFrom(r, before) && r.to == u.fileBytesReceived && AnswersFor(cb, u.userDownloadCb, r.told, cs)
    ensures forall o: nat :: CountAt(r.attempts, o) <= 3
    ensures cb == OtaHandler && r.status == NX_SUCCESS ==> u.adudrStatus == 0
  {
    hide RunFrom, AnswersFor, CountAt;
  }

  lemma {:induction false} OneMoreRun(u: Updater, was: Trace, connections: seq<bool>, received: nat, runs: seq<Run>,
      r: Run, told: seq<Told>, status: Status, events: seq<Told>)
    requires Chained(runs, received) && RunFrom(r, Counter(runs, received)) && r.to == u.fileBytesReceived
    requires u.eventCb == NoHandler && Recorded(u)
    requires events == was.told + told && AcceptedBytes(told) == AcceptedBytes(AllTold(runs))
    requires ToldWith(events, u.events, r.told, status)
    requires u.exchanges == was.exchanges + AllExchanges(runs) + RunExchanges(r.probe, r.attempts)
    requires u.connections == connections + AllConnections(runs) + [r.probe.Probe?]
    ensures u.events != []
    ensures Downloading(u, was, connections, received, runs + [r], told + r.told + [u.events[|u.events| - 1]])
  {
    hide *;
    ToldIs(events, u.events, r.told, status);
    ghost var last := u.events[|u.events| - 1];
    OneMoreTold(runs, r, received);
    StatusBehind(told, r.told, AllTold(runs), last);
    Assoc4(was.told, told, r.told, [last]);
    AssocMore(was.exchanges, AllExchanges(runs), RunExchanges(r.probe, r.attempts), connections, AllConnections(runs),
      [r.probe.Probe?]);
    DownloadingIs(u, was, connections, received, runs + [r], told + r.told + [last]);
  }

  lemma ToldIs(was: seq<Told>, now: seq<Told>, ts: seq<Told>, status: Status)
    requires ToldWith(was, now, ts, status)
    ensures now != [] && now == was + ts + [now[|now| - 1]] && now[|now| - 1].event.StatusEvent?
  {
  }

  lemma Assoc4(a: seq<Told>, b: seq<Told>, c: seq<Told>, d: seq<Told>)
    ensures a + b + c + d == a + (b + c + d)
  {
  }

  lemma DownloadingIs(u: Updater, was: Trace, connections: seq<bool>, received: nat, runs: seq<Run>, told: seq<Told>)
    requires u.eventCb == NoHandler && Recorded(u) && Chained(runs, received)
    requires u.fileBytesReceived == Counter(runs, received)
    requires u.events == was.told + told && AcceptedBytes(told) == AcceptedBytes(AllTold(runs))
    requires u.exchanges == was.exchanges + AllExchanges(runs) && u.connections == connections + AllConnections(runs)
    ensures Downloading(u, was, connections, received, runs, told)
  {
    hide Recorded, Chained, AcceptedBytes, AllTold, AllExchanges, AllConnections, Counter;
  }

  lemma {:induction false} OneMoreTold(runs: seq<Run>, r: Run, received: nat)
    requires Chained(runs, received) && RunFrom(r, Counter(runs, received))
    ensures AllTold(runs + [r]) == AllTold(runs) + r.told && Chained(runs + [r], received)
    ensures Counter(runs + [r], received) == r.to
    ensures AllExchanges(runs + [r]) == AllExchanges(runs) + RunExchanges(r.probe, r.attempts)
    ensures AllConnections(runs + [r]) == AllConnections(runs) + [r.probe.Probe?]
  {
    hide RunFrom, RunExchanges;
    assert (runs + [r])[..|runs|] == runs;
  }

  lemma AssocMore(a: seq<Exchange>, b: seq<Exchange>, c: seq<Exchange>, x: seq<bool>, y: seq<bool>, z: seq<bool>)
    ensures a + b + c == a + (b + c) && x + y + z == x + (y + z)
  {
  }

  lemma {:induction false} StatusBehind(told: seq<Told>, more: seq<Told>, all: seq<Told>, last: Told)
    requires AcceptedBytes(told) == AcceptedBytes(all) && last.event.StatusEvent?
    ensures AcceptedBytes(told + more + [last]) == AcceptedBytes(all + more)
  {
    assert AcceptedBytes([last]) == [] + AcceptedBytes([last][1..]) == [];
    hide AcceptedBytes;
    AcceptedAppend(all, more);
    AcceptedAppend(told, more);
    AcceptedAppend(told + more, [last]);
  }

  /** The block that a run was rejected with is the first one that the next run delivers. */
  lemma RejectedAgain(r: Run, before: nat, r': Run, before': nat)
    requires RunFrom(r, before) && RunFrom(r', before') && r'.Size() == r.Size()
    requires r.status == NX_DOWNLOAD_ABORTED_BY_USER && |r.told| > 1
    requires r'.from == r.to && |r'.told| > 1
    ensures var rejected, again := r.told[|r.told| - 1], r'.told[1];
      && !rejected.accepted && rejected.event.DataEvent? && again.event.DataEvent?
      && again.event.offset == rejected.event.offset && |again.event.data| == |rejected.event.data|
  {
    hide Matched, Backs, Walks, Closes;
    RunShape(r', before');
    if |Blocks(r')| > 0 {
      assert Blocks(r')[0] == r'.told[1];
    }
  }

  /** A successful run tells of the size and then of all blocks: as many as the rest of the file needs, at least one. */
  lemma SuccessfulRun(r: Run, before: nat)
    requires RunFrom(r, before) && r.status == NX_SUCCESS
    ensures r.told[0].event == FileSizeEvent(r.Size()) && r.told[0].accepted
    ensures Contiguous(r.told[1..], r.from, r.Size(), r.Size()) && r.from <= r.Size()
    ensures |r.told| == if r.Size() == 0 then 2 else 1 + (r.Size() - r.from + 4095) / 4096
  {
    hide Matched, Backs, Walks, Closes;
    BlocksTile(r.told[1..], r.from, r.to, r.Size());
    if r.Size() > 0 {
      BlockCount(r.told[1..], r.from, r.Size());
    }
  }
}
