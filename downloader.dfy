/** The downloader (src/downloader.rs): the streaming download with its
    progress counter, the ranged download, the two directory helpers, and
    the unpacking of downloaded archives.

    Every reply of the HTTP client, every answer of the operating system and
    the outcome of the ZIP extraction library is an input. Each imperative
    operation is a method proved equal to a specification function, and the
    properties the downloader promises are proved about those functions. */
module Downloader {
  import opened Base
  import opened Http
  import opened RangePlan
  import opened FileSystem

  /** Directory the archives are extracted into (src/downloader.rs:14). */
  const UNPACKED_PATH: Path := "songs_unpacked"
  /** Directory the archives are downloaded into (src/downloader.rs:15). */
  const DOWNLOADED_PATH: Path := "songs"

  /** The error strings of the two download functions, by cause. */
  datatype FetchError =
    | RequestFailed            // the GET or HEAD request could not be sent
    | MissingLength            // the response has no content length
    | FileCreateFailed         // `File::create` of the destination failed
    | StreamError              // an item of the response stream was an error
    | RangeRequestFailed       // a ranged GET could not be sent
    | UnexpectedStatus(status: nat)  // a ranged response was neither 200 nor 206
    | BodyCopyFailed           // copying a ranged body into the file failed
    | HeadTextFailed           // reading the text of the HEAD response failed

  /** How a download call ends: `Ok(())`, `Err(..)`, or the arithmetic
      overflow panic of `length - 1` when the content length is 0. */
  datatype Outcome = Done | Failed(error: FetchError) | Panicked

  /** The destination file after a call: never created (or its creation
      failed), or created, truncated, and then holding `contents`. */
  datatype FileState = Untouched | Created(contents: Bytes)

  /** The chunks written one after the other. */
  function Concat(chunks: seq<Bytes>): Bytes
  {
    if chunks == [] then [] else chunks[0] + Concat(chunks[1..])
  }

  lemma {:induction false} ConcatAppend(a: seq<Bytes>, b: seq<Bytes>)
    ensures Concat(a + b) == Concat(a) + Concat(b)
  {
    if a == [] {
      assert a + b == b;
    } else {
      assert (a + b)[0] == a[0] && (a + b)[1..] == a[1..] + b;
      ConcatAppend(a[1..], b);
    }
  }

  lemma TakeOneMore<T>(s: seq<T>, i: nat)
    requires i < |s|
    ensures s[..i + 1] == s[..i] + [s[i]]
  {
  }

  // =====================================================================
  // download_async (src/downloader.rs:17-58)
  // =====================================================================

  /** The chunks of a body stream that arrive before its first error. */
  function Received(stream: seq<StreamItem>): (chunks: seq<Bytes>)
    ensures |chunks| <= |stream|
    ensures forall i :: 0 <= i < |chunks| ==> stream[i] == Chunk(chunks[i])
    ensures |chunks| < |stream| ==> stream[|chunks|] == StreamFault
  {
    if stream == [] || stream[0].StreamFault? then []
    else [stream[0].data] + Received(stream[1..])
  }

  /** The value of the progress counter `downloaded` once `chunks` have
      arrived: each chunk adds its length, clamped at `total`. */
  function Progress(total: u64, chunks: seq<Bytes>): u64
  {
    if chunks == [] then 0
    else Min(Progress(total, chunks[..|chunks| - 1]) + |chunks[|chunks| - 1]|, total)
  }

  /** The positions given to the progress bar, one per chunk. */
  function Positions(total: u64, chunks: seq<Bytes>): (ps: seq<u64>)
    ensures |ps| == |chunks|
  {
    if chunks == [] then []
    else Positions(total, chunks[..|chunks| - 1]) + [Progress(total, chunks)]
  }

  /** The counter is the number of bytes received, capped at `total`. */
  lemma {:induction false} ProgressIsClampedLength(total: u64, chunks: seq<Bytes>)
    ensures Progress(total, chunks) == Min(|Concat(chunks)|, total)
  {
    if chunks != [] {
      var init, last := chunks[..|chunks| - 1], chunks[|chunks| - 1];
      assert chunks == init + [last];
      ConcatAppend(init, [last]);
      assert Concat([last]) == last;
      ProgressIsClampedLength(total, init);
    }
  }

  /** The counter never decreases from one chunk to the next and never
      exceeds `total`. */
  lemma {:induction false} PositionsMonotoneBounded(total: u64, chunks: seq<Bytes>)
    ensures forall i :: 0 <= i < |chunks| ==> Positions(total, chunks)[i] <= total
    ensures forall i, j :: 0 <= i <= j < |chunks| ==>
              Positions(total, chunks)[i] <= Positions(total, chunks)[j]
  {
    if chunks != [] {
      var init := chunks[..|chunks| - 1];
      PositionsMonotoneBounded(total, init);
      var ps, prev := Positions(total, chunks), Positions(total, init);
      assert ps == prev + [Progress(total, chunks)];
      assert prev != [] ==> prev[|prev| - 1] == Progress(total, init) by {
        if prev != [] {
          assert init == init[..|init| - 1] + [init[|init| - 1]];
        }
      }
    }
  }

  /** What `download_async` does with one reply of the GET, given whether
      `File::create` of the destination succeeds. */
  datatype StreamRecord = StreamRecord(outcome: Outcome, file: FileState, progress: seq<u64>)

  function StreamFetch(reply: GetReply, createOk: bool): StreamRecord
  {
    match reply
    case GetSendFailed => StreamRecord(Failed(RequestFailed), Untouched, [])
    case GetResponse(length, stream) =>
      if length.None? then StreamRecord(Failed(MissingLength), Untouched, [])
      else if !createOk then StreamRecord(Failed(FileCreateFailed), Untouched, [])
      else
        var chunks := Received(stream);
        var progress := Positions(length.value, chunks);
        if |chunks| < |stream| then StreamRecord(Failed(StreamError), Created([]), progress)
        else StreamRecord(Done, Created(Concat(chunks)), progress)
  }

  /** The error precedence and the output of `download_async`. */
  lemma StreamFetchContract(reply: GetReply, createOk: bool)
    // every error raised before `File::create` leaves the file untouched
    ensures var r := StreamFetch(reply, createOk);
            r.file == Untouched <==> reply.GetSendFailed? || reply.contentLength.None? || !createOk
    ensures var r := StreamFetch(reply, createOk);
            reply.GetSendFailed? ==> r.outcome == Failed(RequestFailed)
    ensures var r := StreamFetch(reply, createOk);
            reply.GetResponse? && reply.contentLength.None? ==> r.outcome == Failed(MissingLength)
    ensures var r := StreamFetch(reply, createOk);
            reply.GetResponse? && reply.contentLength.Some? && !createOk ==> r.outcome == Failed(FileCreateFailed)
    ensures var r := StreamFetch(reply, createOk);
            r.outcome == Done <==> reply.GetResponse? && reply.contentLength.Some? && createOk && StreamFault !in reply.stream
    // a stream error once the file exists is reported as such
    ensures var r := StreamFetch(reply, createOk);
            reply.GetResponse? && reply.contentLength.Some? && createOk && StreamFault in reply.stream ==>
              r.outcome == Failed(StreamError)
    // on success the file is every received chunk, in arrival order, uncut
    ensures var r := StreamFetch(reply, createOk);
            r.outcome == Done ==> r.file == Created(Concat(Received(reply.stream)))
    // a stream error leaves the created file empty: chunks are only written after the stream ends
    ensures var r := StreamFetch(reply, createOk);
            r.outcome == Failed(StreamError) ==> r.file == Created([])
    ensures StreamFetch(reply, createOk).outcome != Panicked
  {
    if reply.GetResponse? && StreamFault in reply.stream {
      var k :| 0 <= k < |reply.stream| && reply.stream[k] == StreamFault;
      assert |Received(reply.stream)| <= k;
    }
  }

  /** On success the last position shown is the file's length capped at
      the content length: the cap bounds the counter, never the file. */
  lemma StreamProgressVsFile(reply: GetReply, createOk: bool)
    requires StreamFetch(reply, createOk).outcome == Done
    requires StreamFetch(reply, createOk).progress != []
    ensures var r := StreamFetch(reply, createOk);
            r.progress[|r.progress| - 1] == Min(|r.file.contents|, reply.contentLength.value)
  {
    var chunks := Received(reply.stream);
    var total := reply.contentLength.value;
    assert Positions(total, chunks)[|chunks| - 1] == Progress(total, chunks);
    ProgressIsClampedLength(total, chunks);
  }

  /** A server that announces one byte and sends two: the download
      succeeds, the counter stops at 1, and the file holds both bytes. */
  lemma StreamLongerThanAnnounced()
    ensures StreamFetch(GetResponse(Some(1), [Chunk([7, 8])]), true) == StreamRecord(Done, Created([7, 8]), [1])
  {
    var stream := [Chunk([7, 8])];
    var chunks: seq<Bytes> := [[7, 8]];
    assert stream[1..] == [];
    assert Received(stream) == chunks;
    assert chunks[1..] == [] && chunks[..0] == [];
    assert Concat(chunks) == [7, 8];
    assert Progress(1, chunks) == 1;
    assert Positions(1, chunks) == [1];
  }

  /** The receive loop of `download_async` (src/downloader.rs:42-49): it
      stops at the first stream error, or collects every chunk, moving the
      progress counter after each one. */
  method ReceiveStream(total: u64, stream: seq<StreamItem>)
    returns (faulted: bool, data: seq<Bytes>, progress: seq<u64>)
    ensures faulted <==> |Received(stream)| < |stream|
    ensures data == Received(stream)
    ensures progress == Positions(total, data)
  {
    var downloaded: u64 := 0;
    data := [];
    progress := [];
    var i := 0;
    while i < |stream|
      invariant i <= |Received(stream)|
      invariant data == Received(stream)[..i]
      invariant downloaded == Progress(total, data)
      invariant progress == Positions(total, data)
    {
      match stream[i]
      case StreamFault =>
        assert i == |Received(stream)|;
        assert data == Received(stream);
        return true, data, progress;
      case Chunk(chunk) =>
        assert i < |Received(stream)| && Received(stream)[i] == chunk;
        var next := Min(downloaded + |chunk|, total);
        ghost var before := data;
        TakeOneMore(Received(stream), i);
        data := data + [chunk];
        assert data[..|data| - 1] == before;
        assert Progress(total, data) == next;
        downloaded := next;
        progress := progress + [next];
      i := i + 1;
    }
    assert |Received(stream)| == |stream| && data == Received(stream);
    return false, data, progress;
  }

  /** The write loop of `download_async` (src/downloader.rs:51-54): the
      chunks go to the file one after the other. */
  method WriteChunks(data: seq<Bytes>) returns (written: Bytes)
    ensures written == Concat(data)
  {
    written := [];
    for j := 0 to |data|
      invariant written == Concat(data[..j])
    {
      TakeOneMore(data, j);
      ConcatAppend(data[..j], [data[j]]);
      written := written + data[j];
    }
    assert data[..|data|] == data;
  }

  method DownloadAsync(reply: GetReply, createOk: bool)
    returns (outcome: Outcome, file: FileState, progress: seq<u64>)
    ensures StreamRecord(outcome, file, progress) == StreamFetch(reply, createOk)
  {
    if reply.GetSendFailed? {
      return Failed(RequestFailed), Untouched, [];
    }
    if reply.contentLength.None? {
      return Failed(MissingLength), Untouched, [];
    }
    var total := reply.contentLength.value;
    if !createOk {
      return Failed(FileCreateFailed), Untouched, [];
    }
    var faulted, data;
    faulted, data, progress := ReceiveStream(total, reply.stream);
    if faulted {
      return Failed(StreamError), Created([]), progress;
    }
    var written := WriteChunks(data);
    return Done, Created(written), progress;
  }

  // =====================================================================
  // download (src/downloader.rs:60-113)
  // =====================================================================

  /** The error, if any, with which `download` stops on the reply to one
      ranged request (src/downloader.rs:85-103). */
  function ReplyError(reply: RangeReply): (e: Option<FetchError>)
    ensures e.None? <==> reply.RangeResponse? && IsAcceptedStatus(reply.status) && reply.complete
    ensures reply.RangeResponse? && !IsAcceptedStatus(reply.status) ==> e == Some(UnexpectedStatus(reply.status))
  {
    match reply
    case RangeSendFailed => Some(RangeRequestFailed)
    case RangeResponse(status, _, complete) =>
      if !IsAcceptedStatus(status) then Some(UnexpectedStatus(status))
      else if !complete then Some(BodyCopyFailed)
      else None
  }

  /** The bytes `download` appends to the file for one reply: the copied
      body of a response whose status passed the gate, nothing otherwise. */
  function Appended(reply: RangeReply): Bytes
  {
    if reply.RangeResponse? && IsAcceptedStatus(reply.status) then reply.body else []
  }

  /** The server's answer to the ranged request for window `w`. */
  function ReplyTo(server: string -> RangeReply, w: Window): RangeReply
  {
    server(RangeHeader(w))
  }

  /** The bytes appended for each of the requests, in request order. */
  function Bodies(server: string -> RangeReply, ws: seq<Window>): (bs: seq<Bytes>)
    ensures |bs| == |ws|
    ensures forall i :: 0 <= i < |ws| ==> bs[i] == Appended(ReplyTo(server, ws[i]))
  {
    if ws == [] then [] else [Appended(ReplyTo(server, ws[0]))] + Bodies(server, ws[1..])
  }

  /** The reply to the request for `w` lets the loop go on. */
  predicate Succeeds(server: string -> RangeReply, w: Window)
  {
    ReplyError(ReplyTo(server, w)).None?
  }

  /** The range loop run over planned windows: the error it stops with (if
      any), the bytes it appended, and the windows it requested. */
  datatype RangeRecord = RangeRecord(error: Option<FetchError>, appended: Bytes, issued: seq<Window>)

  function RangeRun(ws: seq<Window>, server: string -> RangeReply): RangeRecord
  {
    if ws == [] then RangeRecord(None, [], [])
    else
      var reply := ReplyTo(server, ws[0]);
      match ReplyError(reply)
      case Some(e) => RangeRecord(Some(e), Appended(reply), [ws[0]])
      case None =>
        var rest := RangeRun(ws[1..], server);
        assert ws == [ws[0]] + ws[1..];
        RangeRecord(rest.error, Appended(reply) + rest.appended, [ws[0]] + rest.issued)
  }

  /** The error precedence of `download`, and the windows it requests. */
  lemma RangedFetchContract(head: HeadReply, server: string -> RangeReply, createOk: bool)
    // a failed HEAD or a missing content length returns before `File::create`
    ensures var r := RangedFetch(head, server, createOk);
            r.file == Untouched <==> head.HeadSendFailed? || head.contentLength.None? || !createOk
    ensures var r := RangedFetch(head, server, createOk);
            head.HeadSendFailed? ==> r.outcome == Failed(RequestFailed)
    ensures var r := RangedFetch(head, server, createOk);
            head.HeadResponse? && head.contentLength.None? ==> r.outcome == Failed(MissingLength)
    ensures var r := RangedFetch(head, server, createOk);
            head.HeadResponse? && head.contentLength.Some? && !createOk ==> r.outcome == Failed(FileCreateFailed)
    // a zero content length overflows `length - 1`, after the file is created
    ensures var r := RangedFetch(head, server, createOk);
            r.outcome == Panicked <==> head.HeadResponse? && head.contentLength == Some(0) && createOk
    // only planned windows are requested, in plan order
    ensures var r := RangedFetch(head, server, createOk);
            r.requests != [] ==> Ranging(head, createOk) && r.requests <= Windows(head.contentLength.value)
  {
    if Ranging(head, createOk) {
      RangeRunIssuesPrefix(Windows(head.contentLength.value), server);
    }
  }

  /** On success every planned window was requested and accepted, and the
      file is their bodies in request order followed by the HEAD text. */
  lemma RangedFetchDone(head: HeadReply, server: string -> RangeReply, createOk: bool)
    ensures var r := RangedFetch(head, server, createOk);
            r.outcome == Done ==>
              Ranging(head, createOk) && head.text.Some? && r.requests == Windows(head.contentLength.value) &&
              r.file == Created(Concat(Bodies(server, r.requests)) + head.text.value) &&
              forall i :: 0 <= i < |r.requests| ==> Succeeds(server, r.requests[i])
  {
    if Ranging(head, createOk) {
      var ws := Windows(head.contentLength.value);
      RangeRunCompletes(ws, server);
      RangeRunAppended(ws, server);
    }
  }

  /** A failed ranged request stops the loop: it was the last one, every
      earlier one was accepted, its reply gives the error, and the file
      holds the bodies appended so far. */
  lemma RangedFetchFailedRequest(head: HeadReply, server: string -> RangeReply, createOk: bool)
    ensures var r := RangedFetch(head, server, createOk);
            r.outcome.Failed? && r.requests != [] && !Succeeds(server, r.requests[|r.requests| - 1]) ==>
              r.outcome.error == ReplyError(ReplyTo(server, r.requests[|r.requests| - 1])).value &&
              (forall i :: 0 <= i < |r.requests| - 1 ==> Succeeds(server, r.requests[i])) &&
              r.file == Created(Concat(Bodies(server, r.requests)))
  {
    var r := RangedFetch(head, server, createOk);
    if Ranging(head, createOk) {
      var run := RangeRun(Windows(head.contentLength.value), server);
      RangeRunRefusedLast(Windows(head.contentLength.value), server);
      assert r.requests == run.issued;
      assert r.outcome.Failed? ==> r.file == Created(run.appended);
      assert run.error.Some? ==> r.outcome == Failed(run.error.value);
    } else {
      assert r.requests == [];
    }
  }

  /** A run whose last request was refused failed with that reply's error,
      after accepting every earlier request. */
  lemma RangeRunRefusedLast(ws: seq<Window>, server: string -> RangeReply)
    ensures var run := RangeRun(ws, server);
            run.issued != [] && !Succeeds(server, run.issued[|run.issued| - 1]) ==>
              run.error == ReplyError(ReplyTo(server, run.issued[|run.issued| - 1])) &&
              (forall i :: 0 <= i < |run.issued| - 1 ==> Succeeds(server, run.issued[i])) &&
              run.appended == Concat(Bodies(server, run.issued))
  {
    RangeRunAppended(ws, server);
    RangeRunStopsAtFailure(ws, server);
    if RangeRun(ws, server).error.None? {
      RangeRunCompletes(ws, server);
    }
  }

  /** `download` reaches its range loop: the HEAD reply carries a length of
      at least one byte and the destination file was created. */
  predicate Ranging(head: HeadReply, createOk: bool)
  {
    head.HeadResponse? && head.contentLength.Some? && head.contentLength.value >= 1 && createOk
  }

  /** Once in the range loop, `download` succeeds exactly when every
      planned window is accepted and the HEAD text can be read. */
  lemma RangedFetchDoneIff(head: HeadReply, server: string -> RangeReply, createOk: bool)
    requires Ranging(head, createOk)
    ensures var ws := Windows(head.contentLength.value);
            RangedFetch(head, server, createOk).outcome == Done <==>
              head.text.Some? && forall i :: 0 <= i < |ws| ==> Succeeds(server, ws[i])
  {
    RangeRunFailsIff(Windows(head.contentLength.value), server);
  }

  /** Once in the range loop, the first refused window is the last one
      requested, and `download` returns that reply's error. */
  lemma RangedFetchStopsAtFirstRefusal(head: HeadReply, server: string -> RangeReply, createOk: bool, k: nat)
    requires Ranging(head, createOk)
    requires k < |Windows(head.contentLength.value)|
    requires !Succeeds(server, Windows(head.contentLength.value)[k])
    requires forall j :: 0 <= j < k ==> Succeeds(server, Windows(head.contentLength.value)[j])
    ensures var ws, r := Windows(head.contentLength.value), RangedFetch(head, server, createOk);
            r.requests == ws[..k + 1] &&
            r.outcome == Failed(ReplyError(ReplyTo(server, ws[k])).value)
  {
    var ws := Windows(head.contentLength.value);
    RangeRunFailsIff(ws, server);
    RangeRunIssuesPrefix(ws, server);
    RangeRunStopsAtFailure(ws, server);
    var issued := RangeRun(ws, server).issued;
    var m := |issued| - 1;
    assert issued == ws[..m + 1];
    assert issued[m] == ws[m];
  }

  /** A failed read of the HEAD text comes after the whole loop: every
      planned window was requested and its body written; and a clean loop
      followed by an unreadable HEAD text fails with exactly that error. */
  lemma RangedFetchTextFailure(head: HeadReply, server: string -> RangeReply, createOk: bool)
    requires Ranging(head, createOk)
    ensures var ws, r := Windows(head.contentLength.value), RangedFetch(head, server, createOk);
            r.outcome == Failed(HeadTextFailed) ==>
              head.text.None? && r.requests == ws && r.file == Created(Concat(Bodies(server, ws))) &&
              forall i :: 0 <= i < |ws| ==> Succeeds(server, ws[i])
    ensures var ws, r := Windows(head.contentLength.value), RangedFetch(head, server, createOk);
            head.text.None? && (forall i :: 0 <= i < |ws| ==> Succeeds(server, ws[i])) ==>
              r.outcome == Failed(HeadTextFailed)
  {
    var ws := Windows(head.contentLength.value);
    var run := RangeRun(ws, server);
    RangeRunFailsIff(ws, server);
    if run.error.Some? {
      RangeRunStopsAtFailure(ws, server);
      var last := ReplyTo(server, run.issued[|run.issued| - 1]);
      assert run.error.value != HeadTextFailed by {
        assert run.error == ReplyError(last);
      }
    } else {
      RangeRunCompletes(ws, server);
      RangeRunAppended(ws, server);
    }
  }

  /** `RangeRun` over `done + rest`, when every window of `done` succeeded. */
  function Resume(appended: Bytes, issued: seq<Window>, r: RangeRecord): RangeRecord
  {
    RangeRecord(r.error, appended + r.appended, issued + r.issued)
  }

  lemma ResumeTwice(a: Bytes, i: seq<Window>, b: Bytes, j: seq<Window>, r: RangeRecord)
    ensures Resume(a, i, Resume(b, j, r)) == Resume(a + b, i + j, r)
  {
    assert a + (b + r.appended) == (a + b) + r.appended;
    assert i + (j + r.issued) == (i + j) + r.issued;
  }

  /** One turn of the loop: the first window's reply either stops the run
      or the run goes on with the remaining windows. */
  lemma RangeRunStep(w: Window, rest: seq<Window>, server: string -> RangeReply)
    ensures var reply := ReplyTo(server, w);
            RangeRun([w] + rest, server) ==
              if ReplyError(reply).Some? then RangeRecord(ReplyError(reply), Appended(reply), [w])
              else Resume(Appended(reply), [w], RangeRun(rest, server))
  {
    assert ([w] + rest)[0] == w && ([w] + rest)[1..] == rest;
  }

  /** One turn of the loop of `download`, seen from the whole run: the
      window from `start` is requested, and its reply either ends the run or
      the run goes on from the next start. */
  lemma LoopStep(written: Bytes, requests: seq<Window>, start: nat, end: nat,
                 server: string -> RangeReply)
    requires start < end
    ensures var next := NextStart(start, end);
            var w := Window(start, next - 1);
            var reply := ReplyTo(server, w);
            Resume(written, requests, RangeRun(WindowsFrom(start, end), server)) ==
              if ReplyError(reply).Some? then RangeRecord(ReplyError(reply), written + Appended(reply), requests + [w])
              else Resume(written + Appended(reply), requests + [w], RangeRun(WindowsFrom(next, end), server))
  {
    var next := NextStart(start, end);
    var w := Window(start, next - 1);
    WindowsFromStep(start, end);
    RangeRunStep(w, WindowsFrom(next, end), server);
    ResumeTwice(written, requests, Appended(ReplyTo(server, w)), [w], RangeRun(WindowsFrom(next, end), server));
  }

  /** The loop invariant of `download` across one turn: with the error and
      the bytes of the request for `window`, the run either ends here or
      goes on from `next`. */
  lemma LoopTurn(run: RangeRecord, written: Bytes, requests: seq<Window>, start: nat, end: nat,
                 next: nat, window: Window, server: string -> RangeReply,
                 error: Option<FetchError>, appended: Bytes)
    requires start < end && next == NextStart(start, end) && window == Window(start, next - 1)
    requires run == Resume(written, requests, RangeRun(WindowsFrom(start, end), server))
    requires error == ReplyError(ReplyTo(server, window))
    requires appended == Appended(ReplyTo(server, window))
    ensures error.Some? ==> run == RangeRecord(error, written + appended, requests + [window])
    ensures error.None? ==> run == Resume(written + appended, requests + [window], RangeRun(WindowsFrom(next, end), server))
  {
    LoopStep(written, requests, start, end, server);
  }

  /** Windows are requested in plan order, at least one when any is
      planned. */
  lemma {:induction false} RangeRunIssuesPrefix(ws: seq<Window>, server: string -> RangeReply)
    ensures RangeRun(ws, server).issued <= ws
    ensures ws != [] ==> RangeRun(ws, server).issued != []
  {
    if ws != [] && ReplyError(ReplyTo(server, ws[0])).None? {
      RangeRunIssuesPrefix(ws[1..], server);
      assert ws == [ws[0]] + ws[1..];
    }
  }

  /** No window is requested after the first failure, and the loop stops
      with the error of the last reply. */
  lemma {:induction false} RangeRunStopsAtFailure(ws: seq<Window>, server: string -> RangeReply)
    ensures forall i :: 0 <= i < |RangeRun(ws, server).issued| - 1 ==> Succeeds(server, RangeRun(ws, server).issued[i])
    ensures RangeRun(ws, server).error.Some? ==>
              |RangeRun(ws, server).issued| > 0 &&
              RangeRun(ws, server).error == ReplyError(ReplyTo(server, RangeRun(ws, server).issued[|RangeRun(ws, server).issued| - 1]))
  {
    if ws != [] && ReplyError(ReplyTo(server, ws[0])).None? {
      RangeRunStopsAtFailure(ws[1..], server);
      var rest := RangeRun(ws[1..], server);
      var r := RangeRun(ws, server);
      assert r.issued == [ws[0]] + rest.issued;
      forall i | 0 <= i < |r.issued| - 1 ensures Succeeds(server, r.issued[i]) {
        if i > 0 { assert r.issued[i] == rest.issued[i - 1]; }
      }
    }
  }

  /** Without an error the loop requests every planned window, and every
      reply was accepted. */
  lemma {:induction false} RangeRunCompletes(ws: seq<Window>, server: string -> RangeReply)
    ensures RangeRun(ws, server).error.None? ==>
              RangeRun(ws, server).issued == ws && forall i :: 0 <= i < |ws| ==> Succeeds(server, ws[i])
  {
    if ws != [] && ReplyError(ReplyTo(server, ws[0])).None? {
      RangeRunCompletes(ws[1..], server);
      assert ws == [ws[0]] + ws[1..];
      if RangeRun(ws, server).error.None? {
        forall i | 0 < i < |ws| ensures Succeeds(server, ws[i]) {
          assert ws[i] == ws[1..][i - 1];
        }
      }
    }
  }

  /** The file receives the accepted bodies of the issued requests, in order. */
  lemma {:induction false} RangeRunAppended(ws: seq<Window>, server: string -> RangeReply)
    ensures RangeRun(ws, server).appended == Concat(Bodies(server, RangeRun(ws, server).issued))
  {
    if ws != [] {
      var reply := ReplyTo(server, ws[0]);
      if ReplyError(reply).None? {
        var rest := RangeRun(ws[1..], server);
        RangeRunAppended(ws[1..], server);
        assert Bodies(server, [ws[0]] + rest.issued) == [Appended(reply)] + Bodies(server, rest.issued);
      } else {
        assert Bodies(server, [ws[0]]) == [Appended(reply)];
      }
    }
  }

  /** The loop fails exactly when the reply to some planned window fails. */
  lemma RangeRunFailsIff(ws: seq<Window>, server: string -> RangeReply)
    ensures RangeRun(ws, server).error.Some? <==> exists i :: 0 <= i < |ws| && !Succeeds(server, ws[i])
  {
    RangeRunIssuesPrefix(ws, server);
    RangeRunStopsAtFailure(ws, server);
    RangeRunCompletes(ws, server);
    var r := RangeRun(ws, server);
    if r.error.Some? {
      var k := |r.issued| - 1;
      assert r.issued[k] == ws[k];
    }
  }

  /** What `download` does with the HEAD reply and the server's replies to
      the ranged requests, given whether `File::create` succeeds. */
  datatype RangedRecord = RangedRecord(outcome: Outcome, file: FileState, requests: seq<Window>)

  function RangedFetch(head: HeadReply, server: string -> RangeReply, createOk: bool): RangedRecord
  {
    match head
    case HeadSendFailed => RangedRecord(Failed(RequestFailed), Untouched, [])
    case HeadResponse(length, text) =>
      if length.None? then RangedRecord(Failed(MissingLength), Untouched, [])
      else if !createOk then RangedRecord(Failed(FileCreateFailed), Untouched, [])
      else if length.value == 0 then RangedRecord(Panicked, Created([]), [])
      else
        var run := RangeRun(Windows(length.value), server);
        if run.error.Some? then RangedRecord(Failed(run.error.value), Created(run.appended), run.issued)
        else if text.None? then RangedRecord(Failed(HeadTextFailed), Created(run.appended), run.issued)
        else RangedRecord(Done, Created(run.appended + text.value), run.issued)
  }

  /** One turn of the range loop (src/downloader.rs:77-103): the ranged
      GET for `window`, the status gate, and the copy of the body into the
      file. Returns the error the loop returns with, if any, and the bytes
      appended to the file. */
  method RangedRequest(server: string -> RangeReply, window: Window)
    returns (error: Option<FetchError>, appended: Bytes)
    ensures error == ReplyError(ReplyTo(server, window))
    ensures appended == Appended(ReplyTo(server, window))
  {
    var reply := server(RangeHeader(window));
    if reply.RangeSendFailed? {
      return Some(RangeRequestFailed), [];
    }
    if !IsAcceptedStatus(reply.status) {
      return Some(UnexpectedStatus(reply.status)), [];
    }
    appended := reply.body;
    if !reply.complete {
      return Some(BodyCopyFailed), appended;
    }
    return None, appended;
  }

  /** The range loop of `download` (src/downloader.rs:73-104) for a
      resource of `length >= 1` bytes: the error it returns with, if any,
      the bytes it wrote, and the windows it requested. */
  method RangeLoop(length: u64, server: string -> RangeReply)
    returns (error: Option<FetchError>, written: Bytes, requests: seq<Window>)
    requires length >= 1
    ensures RangeRecord(error, written, requests) == RangeRun(Windows(length), server)
  {
    var start: u64 := 0;
    var end: u64 := length - 1;
    written := [];
    requests := [];
    ghost var run := RangeRun(WindowsFrom(start, end), server);
    assert run == RangeRun(Windows(length), server);
    while start < end
      invariant start <= end + 1
      invariant run == Resume(written, requests, RangeRun(WindowsFrom(start, end), server))
      decreases end - start
    {
      var prevStart := start;
      start := start + Min(CHUNK_SIZE, end - start + 1);
      var window := Window(prevStart, start - 1);
      var error, appended := RangedRequest(server, window);
      LoopTurn(run, written, requests, prevStart, end, start, window, server, error, appended);
      written := written + appended;
      requests := requests + [window];
      if error.Some? {
        return error, written, requests;
      }
    }
    assert RangeRun(WindowsFrom(start, end), server) == RangeRecord(None, [], []);
    return None, written, requests;
  }

  method Download(head: HeadReply, server: string -> RangeReply, createOk: bool)
    returns (outcome: Outcome, file: FileState, requests: seq<Window>)
    ensures RangedRecord(outcome, file, requests) == RangedFetch(head, server, createOk)
  {
    if head.HeadSendFailed? {
      return Failed(RequestFailed), Untouched, [];
    }
    if head.contentLength.None? {
      return Failed(MissingLength), Untouched, [];
    }
    var length := head.contentLength.value;
    if !createOk {
      return Failed(FileCreateFailed), Untouched, [];
    }
    if length == 0 {
      // `length - 1` overflows a u64
      return Panicked, Created([]), [];
    }
    var error, written;
    error, written, requests := RangeLoop(length, server);
    if error.Some? {
      return Failed(error.value), Created(written), requests;
    }
    match head.text
    case None =>
      return Failed(HeadTextFailed), Created(written), requests;
    case Some(text) =>
      written := written + text;
      return Done, Created(written), requests;
  }

  /** When each reply carries exactly its window's bytes, the bodies
      written add up to the total size of the windows requested. */
  lemma {:induction false} DeliveredLength(server: string -> RangeReply, ws: seq<Window>)
    requires forall i :: 0 <= i < |ws| ==> |Appended(ReplyTo(server, ws[i]))| == Size(ws[i])
    ensures |Concat(Bodies(server, ws))| == TotalSize(ws)
  {
    if ws != [] {
      assert Bodies(server, ws) == [Appended(ReplyTo(server, ws[0]))] + Bodies(server, ws[1..]);
      DeliveredLength(server, ws[1..]);
    }
  }

  /** When the server returns exactly the bytes of every window, a
      successful ranged download writes the requested bytes and then the
      HEAD text: `length` bytes before the text, or `length - 1` when
      `(length - 1) % CHUNK_SIZE == 0` and the last byte was never asked for. */
  lemma RangedFileLength(head: HeadReply, server: string -> RangeReply, createOk: bool)
    requires head.HeadResponse? && head.contentLength.Some? && head.contentLength.value >= 1
    requires forall w: Window :: w.first <= w.last ==> |Appended(ReplyTo(server, w))| == Size(w)
    requires RangedFetch(head, server, createOk).outcome == Done
    ensures var length := head.contentLength.value;
            |RangedFetch(head, server, createOk).file.contents| ==
              (if (length - 1) % CHUNK_SIZE == 0 then length - 1 else length) + |head.text.value|
  {
    var length := head.contentLength.value;
    RangedFetchDone(head, server, createOk);
    WindowsShape(length);
    DeliveredLength(server, Windows(length));
    WindowsTotalSize(length);
  }

  /** The same loop over the corrected windows: when the server returns
      exactly the bytes of every window and no reply fails, the file
      receives exactly `length` bytes before the HEAD text, for every
      length including 0 and the chunk boundaries. */
  lemma CoveredFileLength(length: nat, server: string -> RangeReply)
    requires forall w: Window :: w.first <= w.last ==> |Appended(ReplyTo(server, w))| == Size(w)
    requires RangeRun(CoveringWindows(length), server).error.None?
    ensures |RangeRun(CoveringWindows(length), server).appended| == length
  {
    var ws := CoveringWindows(length);
    RangeRunCompletes(ws, server);
    RangeRunAppended(ws, server);
    CoveringWindowsFromShape(0, length);
    DeliveredLength(server, ws);
    CoveringTotalSize(length);
  }

  // =====================================================================
  // create_dir and remove_dir (src/downloader.rs:115-131)
  // =====================================================================

  /** The tree after `create_dir(path)`, where `osOk` is whether
      `fs::create_dir` succeeds when it is called. */
  function CreateDirEffect(t: Tree, path: Path, osOk: bool): (r: Tree)
  {
    if path in t.dirs || !osOk then t else Tree(t.dirs + {path}, t.files)
  }

  /** `create_dir` only ever adds `path`, exactly when it was missing and the
      OS call succeeds; an existing directory is left alone whatever the OS
      would answer. */
  lemma CreateDirContract(t: Tree, path: Path, osOk: bool)
    ensures CreateDirEffect(t, path, osOk).files == t.files
    ensures path in CreateDirEffect(t, path, osOk).dirs <==> path in t.dirs || osOk
    ensures forall p :: p != path ==> (p in CreateDirEffect(t, path, osOk).dirs <==> p in t.dirs)
    ensures path in t.dirs ==> CreateDirEffect(t, path, osOk) == t
  {
  }

  /** Calling `create_dir` twice is the same as calling it once with an OS
      that succeeds if either attempt would: once created, the directory
      is not created again. */
  lemma CreateDirTwice(t: Tree, path: Path, first: bool, second: bool)
    ensures CreateDirEffect(CreateDirEffect(t, path, first), path, second) ==
              CreateDirEffect(t, path, first || second)
  {
  }

  /** The tree after `remove_dir(path)`, where `osOk` is whether
      `fs::remove_dir_all` succeeds when it is called. */
  function RemoveDirEffect(t: Tree, path: Path, osOk: bool): (r: Tree)
  {
    if path in t.dirs && osOk then WithoutSubtree(t, path) else t
  }

  /** `remove_dir` acts only on an existing directory, and then removes it
      with every directory and file beneath it and nothing else. */
  lemma RemoveDirContract(t: Tree, path: Path, osOk: bool, p: Path)
    ensures path !in t.dirs ==> RemoveDirEffect(t, path, osOk) == t
    ensures path in t.dirs && osOk ==>
              path !in RemoveDirEffect(t, path, osOk).dirs &&
              (Beneath(p, path) ==> p !in RemoveDirEffect(t, path, osOk).dirs && p !in RemoveDirEffect(t, path, osOk).files)
    ensures p != path && !Beneath(p, path) ==>
              (p in RemoveDirEffect(t, path, osOk).dirs <==> p in t.dirs) &&
              (p in RemoveDirEffect(t, path, osOk).files <==> p in t.files) &&
              (p in t.files ==> RemoveDirEffect(t, path, osOk).files[p] == t.files[p])
  {
  }

  /** Calling `remove_dir` twice is the same as calling it once with an OS
      that succeeds if either attempt would. */
  lemma RemoveDirTwice(t: Tree, path: Path, first: bool, second: bool)
    ensures RemoveDirEffect(RemoveDirEffect(t, path, first), path, second) ==
              RemoveDirEffect(t, path, first || second)
  {
  }

  /** Removing a directory and creating it again, both successfully, leaves
      it empty, whether or not it existed before: this is how the run
      starts the unpack directory afresh. */
  lemma RemoveThenCreateEmpty(t: Tree, path: Path)
    requires WellFormed(t)
    ensures IsEmptyDir(CreateDirEffect(RemoveDirEffect(t, path, true), path, true), path)
  {
  }

  /** `create_dir` keeps the tree well formed, given that `fs::create_dir`
      fails when a directory above `path` is missing. */
  lemma CreateDirKeepsWellFormed(t: Tree, path: Path, osOk: bool)
    requires WellFormed(t)
    requires osOk ==> forall d :: Beneath(path, d) ==> d in t.dirs
    ensures WellFormed(CreateDirEffect(t, path, osOk))
  {
  }

  /** `remove_dir` keeps the tree well formed: whatever stays has every
      directory above it. */
  lemma RemoveDirKeepsWellFormed(t: Tree, path: Path, osOk: bool)
    requires WellFormed(t)
    ensures WellFormed(RemoveDirEffect(t, path, osOk))
  {
    var r := RemoveDirEffect(t, path, osOk);
    if path in t.dirs && osOk {
      forall p, d | (p in r.dirs || p in r.files) && Beneath(p, d) ensures d in r.dirs {
        if d == path {
        } else if Beneath(d, path) {
          BeneathTransitive(p, d, path);
        }
      }
    }
  }

  /** `create_dir` (src/downloader.rs:115-122); a failure is only logged. */
  method CreateDir(fs: Disk, path: Path, osOk: bool)
    modifies fs
    ensures fs.State() == CreateDirEffect(old(fs.State()), path, osOk)
  {
    if !fs.IsDir(path) {
      if osOk {
        fs.MakeDir(path);
      }
    }
  }

  /** `remove_dir` (src/downloader.rs:124-131); a failure is only logged. */
  method RemoveDir(fs: Disk, path: Path, osOk: bool)
    modifies fs
    ensures fs.State() == RemoveDirEffect(old(fs.State()), path, osOk)
  {
    if fs.IsDir(path) {
      if osOk {
        fs.RemoveAll(path);
      }
    }
  }

  // =====================================================================
  // unpack_zip and unpack_songs (src/downloader.rs:133-177)
  // =====================================================================

  /** Where a song's archive is downloaded to and read from
      (src/main.rs:41, src/downloader.rs:175). */
  function ArchivePath(hash: string): (p: Path)
    ensures Beneath(p, DOWNLOADED_PATH) && !Beneath(p, UNPACKED_PATH)
  {
    "songs/" + hash + ".zip"
  }

  /** The song hash an archive path names, if it is one. */
  function ArchiveHash(p: Path): Option<string>
  {
    if |p| >= 10 && p[..6] == "songs/" && p[|p| - 4..] == ".zip" then Some(p[6..|p| - 4]) else None
  }

  /** Archive paths name their song: distinct hashes never share an archive. */
  lemma ArchivePathRoundTrip(hash: string, p: Path)
    ensures ArchiveHash(ArchivePath(hash)) == Some(hash)
    ensures ArchiveHash(p) == Some(hash) ==> ArchivePath(hash) == p
  {
    var a := ArchivePath(hash);
    assert a[..6] == "songs/" && a[|a| - 4..] == ".zip" && a[6..|a| - 4] == hash;
    if ArchiveHash(p) == Some(hash) {
      assert p == p[..6] + p[6..|p| - 4] + p[|p| - 4..];
    }
  }

  /** The directory an archive is extracted into (src/downloader.rs:136). */
  function TargetDir(name: string): (d: Path)
    ensures Beneath(d, UNPACKED_PATH) && !Beneath(d, DOWNLOADED_PATH)
  {
    Join(UNPACKED_PATH, name)
  }

  /** The outcome of `zip_extract::extract`, an input of the model: the
      files it writes (named relative to the target directory), or the kind
      of error it returns; a `StripToplevel` error carries the path of the
      entry it is about. */
  datatype ExtractResult =
    | Extracted(entries: map<string, Bytes>)
    | ExtractIo
    | ExtractZip
    | ExtractStripToplevel(path: Path)

  /** What `unpack_zip` logs for one archive. The `StripToplevel` line
      prints the path carried by the error, which shadows the archive path
      (src/downloader.rs:156-163), so that outcome records it. */
  datatype UnpackOutcome = Unpacked | ReadFailed | IoFailed | ZipFailed | StripToplevelFailed(logged: Path)

  datatype UnpackReport = UnpackReport(archive: Path, target: Path, outcome: UnpackOutcome)

  /** The line `unpack_zip(path, name)` logs, given the tree it reads. */
  function UnpackZipReport(t: Tree, extract: (Bytes, Path) -> ExtractResult, path: Path, name: string): (r: UnpackReport)
    ensures r.archive == path && r.target == TargetDir(name)
    // the archive is read first: a missing one is never given to the extractor
    ensures r.outcome == ReadFailed <==> path !in t.files
    ensures r.outcome == Unpacked <==> path in t.files && extract(t.files[path], TargetDir(name)).Extracted?
    // each extractor error has its own line
    ensures r.outcome == IoFailed <==> path in t.files && extract(t.files[path], TargetDir(name)).ExtractIo?
    ensures r.outcome == ZipFailed <==> path in t.files && extract(t.files[path], TargetDir(name)).ExtractZip?
    // the StripToplevel line names the entry the error carries, not the archive
    ensures r.outcome.StripToplevelFailed? <==> path in t.files && extract(t.files[path], TargetDir(name)).ExtractStripToplevel?
    ensures r.outcome.StripToplevelFailed? ==> r.outcome.logged == extract(t.files[path], TargetDir(name)).path
  {
    var target := TargetDir(name);
    var outcome :=
      if path !in t.files then ReadFailed
      else match extract(t.files[path], target)
        case Extracted(_) => Unpacked
        case ExtractIo => IoFailed
        case ExtractZip => ZipFailed
        case ExtractStripToplevel(entry) => StripToplevelFailed(entry);
    UnpackReport(path, target, outcome)
  }

  /** The tree after `unpack_zip(path, name)`: a successful extraction
      creates the target directory and writes its files beneath it. */
  function UnpackZipEffect(t: Tree, extract: (Bytes, Path) -> ExtractResult, path: Path, name: string): (r: Tree)
  {
    if path in t.files && extract(t.files[path], TargetDir(name)).Extracted? then
      Tree(t.dirs + {TargetDir(name)}, t.files + Placed(TargetDir(name), extract(t.files[path], TargetDir(name)).entries))
    else t
  }

  /** Unpacking writes only beneath the target directory: every file
      outside it, the downloaded archives included, is kept as it was. */
  lemma UnpackZipKeepsOutside(t: Tree, extract: (Bytes, Path) -> ExtractResult, path: Path, name: string, p: Path)
    requires !Beneath(p, TargetDir(name))
    ensures p in UnpackZipEffect(t, extract, path, name).files <==> p in t.files
    ensures p in t.files ==> UnpackZipEffect(t, extract, path, name).files[p] == t.files[p]
    ensures p != TargetDir(name) ==> (p in UnpackZipEffect(t, extract, path, name).dirs <==> p in t.dirs)
  {
  }

  /** A successful extraction leaves every entry of the archive beneath the
      target directory with its extracted content. */
  lemma UnpackZipPlacesEntries(t: Tree, extract: (Bytes, Path) -> ExtractResult, path: Path, name: string, entry: string)
    requires UnpackZipReport(t, extract, path, name).outcome == Unpacked
    requires entry in extract(t.files[path], TargetDir(name)).entries
    ensures TargetDir(name) in UnpackZipEffect(t, extract, path, name).dirs
    ensures Join(TargetDir(name), entry) in UnpackZipEffect(t, extract, path, name).files
    ensures UnpackZipEffect(t, extract, path, name).files[Join(TargetDir(name), entry)] ==
              extract(t.files[path], TargetDir(name)).entries[entry]
  {
    PlacedMembers(TargetDir(name), extract(t.files[path], TargetDir(name)).entries, entry, path);
  }

  /** For a flat song name, the only directory above the target is the
      unpack directory. */
  lemma TargetAncestor(name: string, d: Path)
    requires '/' !in name && Beneath(TargetDir(name), d)
    ensures d == UNPACKED_PATH
  {
    BeneathJoin(UNPACKED_PATH, name, d);
    assert !Beneath(UNPACKED_PATH, d);
  }

  /** For flat names, the directories above an extracted file are the
      target and the unpack directory. */
  lemma PlacedAncestor(name: string, entries: map<string, Bytes>, p: Path, d: Path)
    requires '/' !in name && forall e :: e in entries ==> '/' !in e
    requires p in Placed(TargetDir(name), entries) && Beneath(p, d)
    ensures d == TargetDir(name) || d == UNPACKED_PATH
  {
    var e :| e in entries && p == Join(TargetDir(name), e);
    BeneathJoin(TargetDir(name), e, d);
    if d != TargetDir(name) {
      TargetAncestor(name, d);
    }
  }

  /** With the unpack directory in place and flat names (no `/` in the
      song hash or in the entry names), unpacking keeps the tree well
      formed: the target directory and its files have every directory
      above them. */
  lemma UnpackZipKeepsWellFormed(t: Tree, extract: (Bytes, Path) -> ExtractResult, path: Path, name: string)
    requires WellFormed(t) && UNPACKED_PATH in t.dirs && '/' !in name
    requires path in t.files && extract(t.files[path], TargetDir(name)).Extracted? ==>
               forall e :: e in extract(t.files[path], TargetDir(name)).entries ==> '/' !in e
    ensures WellFormed(UnpackZipEffect(t, extract, path, name))
  {
    var target := TargetDir(name);
    if path in t.files && extract(t.files[path], target).Extracted? {
      var entries := extract(t.files[path], target).entries;
      var r := Tree(t.dirs + {target}, t.files + Placed(target, entries));
      forall p, d | (p in r.dirs || p in r.files) && Beneath(p, d) ensures d in r.dirs {
        if p == target {
          TargetAncestor(name, d);
        } else if p in Placed(target, entries) {
          PlacedAncestor(name, entries, p, d);
        }
      }
    }
  }

  /** `unpack_zip` (src/downloader.rs:133-170). */
  method UnpackZip(fs: Disk, extract: (Bytes, Path) -> ExtractResult, path: Path, name: string)
    returns (report: UnpackReport)
    modifies fs
    ensures report == UnpackZipReport(old(fs.State()), extract, path, name)
    ensures fs.State() == UnpackZipEffect(old(fs.State()), extract, path, name)
  {
    var target := TargetDir(name);
    if path !in fs.files {
      return UnpackReport(path, target, ReadFailed);
    }
    var zip := fs.files[path];
    match extract(zip, target)
    case Extracted(entries) =>
      fs.PlaceFiles(target, entries);
      report := UnpackReport(path, target, Unpacked);
    case ExtractIo =>
      report := UnpackReport(path, target, IoFailed);
    case ExtractZip =>
      report := UnpackReport(path, target, ZipFailed);
    case ExtractStripToplevel(entry) =>
      report := UnpackReport(path, target, StripToplevelFailed(entry));
  }

  /** The tree and the log lines of `unpack_songs(songs)`, where `mkdirOk` is
      whether `fs::create_dir` of the unpack directory succeeds. */
  datatype UnpackRun = UnpackRun(tree: Tree, reports: seq<UnpackReport>)

  function UnpackAll(t: Tree, songs: seq<Song>, extract: (Bytes, Path) -> ExtractResult, mkdirOk: bool): UnpackRun
    decreases |songs|
  {
    if songs == [] then UnpackRun(t, [])
    else
      var t1 := CreateDirEffect(t, UNPACKED_PATH, mkdirOk);
      var report := UnpackZipReport(t1, extract, ArchivePath(songs[0].hash), songs[0].hash);
      var rest := UnpackAll(UnpackZipEffect(t1, extract, ArchivePath(songs[0].hash), songs[0].hash), songs[1..], extract, mkdirOk);
      UnpackRun(rest.tree, [report] + rest.reports)
  }

  /** The two trees hold the same downloaded archives. */
  ghost predicate SameArchives(t: Tree, u: Tree)
  {
    forall p :: Beneath(p, DOWNLOADED_PATH) ==>
      (p in t.files <==> p in u.files) && (p in t.files ==> t.files[p] == u.files[p])
  }

  /** Nothing lies beneath both the download and the unpack directory. */
  lemma NotBeneathBoth(p: Path, name: string)
    requires Beneath(p, DOWNLOADED_PATH)
    ensures !Beneath(p, TargetDir(name))
  {
  }

  /** One song of `unpack_songs` keeps every downloaded archive. */
  lemma UnpackStepKeepsArchives(t: Tree, hash: string, extract: (Bytes, Path) -> ExtractResult, mkdirOk: bool)
    ensures SameArchives(t, UnpackZipEffect(CreateDirEffect(t, UNPACKED_PATH, mkdirOk), extract, ArchivePath(hash), hash))
  {
    var t1 := CreateDirEffect(t, UNPACKED_PATH, mkdirOk);
    forall p | Beneath(p, DOWNLOADED_PATH)
      ensures var t2 := UnpackZipEffect(t1, extract, ArchivePath(hash), hash);
              (p in t.files <==> p in t2.files) && (p in t.files ==> t.files[p] == t2.files[p])
    {
      NotBeneathBoth(p, hash);
      UnpackZipKeepsOutside(t1, extract, ArchivePath(hash), hash, p);
    }
  }

  /** Unpacking never touches the downloaded archives. */
  lemma {:induction false} UnpackAllKeepsArchives(t: Tree, songs: seq<Song>, extract: (Bytes, Path) -> ExtractResult, mkdirOk: bool)
    ensures SameArchives(t, UnpackAll(t, songs, extract, mkdirOk).tree)
    decreases |songs|
  {
    if songs != [] {
      var h := songs[0].hash;
      var t2 := UnpackZipEffect(CreateDirEffect(t, UNPACKED_PATH, mkdirOk), extract, ArchivePath(h), h);
      UnpackStepKeepsArchives(t, h, extract, mkdirOk);
      UnpackAllKeepsArchives(t2, songs[1..], extract, mkdirOk);
    }
  }

  /** The log line of `unpack_zip` reads only the archive. */
  lemma ReportOfSameArchives(t: Tree, u: Tree, extract: (Bytes, Path) -> ExtractResult, hash: string)
    requires SameArchives(t, u)
    ensures UnpackZipReport(t, extract, ArchivePath(hash), hash) == UnpackZipReport(u, extract, ArchivePath(hash), hash)
  {
    assert Beneath(ArchivePath(hash), DOWNLOADED_PATH);
  }

  /** Every song is unpacked, in order, whatever happened to the others: the
      i-th log line is about the i-th song's archive and target, and its
      outcome depends only on that archive as it was before the call. */
  lemma {:induction false} UnpackAllReports(t: Tree, songs: seq<Song>, extract: (Bytes, Path) -> ExtractResult, mkdirOk: bool)
    ensures |UnpackAll(t, songs, extract, mkdirOk).reports| == |songs|
    ensures forall i :: 0 <= i < |songs| ==>
              UnpackAll(t, songs, extract, mkdirOk).reports[i] ==
                UnpackZipReport(t, extract, ArchivePath(songs[i].hash), songs[i].hash)
    decreases |songs|
  {
    if songs != [] {
      var h := songs[0].hash;
      var t1 := CreateDirEffect(t, UNPACKED_PATH, mkdirOk);
      var t2 := UnpackZipEffect(t1, extract, ArchivePath(h), h);
      UnpackStepKeepsArchives(t, h, extract, mkdirOk);
      UnpackAllReports(t2, songs[1..], extract, mkdirOk);
      var run := UnpackAll(t, songs, extract, mkdirOk);
      var rest := UnpackAll(t2, songs[1..], extract, mkdirOk);
      assert run.reports == [UnpackZipReport(t1, extract, ArchivePath(h), h)] + rest.reports;
      forall i | 0 <= i < |songs|
        ensures run.reports[i] == UnpackZipReport(t, extract, ArchivePath(songs[i].hash), songs[i].hash)
      {
        if i == 0 {
          ReportOfSameArchives(t, t1, extract, h);
        } else {
          assert songs[1..][i - 1] == songs[i];
          ReportOfSameArchives(t, t2, extract, songs[i].hash);
        }
      }
    }
  }

  /** Unpacking removes no directory. */
  lemma {:induction false} UnpackAllKeepsDirs(t: Tree, songs: seq<Song>, extract: (Bytes, Path) -> ExtractResult, mkdirOk: bool)
    ensures t.dirs <= UnpackAll(t, songs, extract, mkdirOk).tree.dirs
    decreases |songs|
  {
    if songs != [] {
      var h := songs[0].hash;
      var t2 := UnpackZipEffect(CreateDirEffect(t, UNPACKED_PATH, mkdirOk), extract, ArchivePath(h), h);
      UnpackAllKeepsDirs(t2, songs[1..], extract, mkdirOk);
    }
  }

  /** `UnpackAll` over `done + rest`, seen after `done`. */
  function ResumeUnpack(done: seq<UnpackReport>, r: UnpackRun): UnpackRun
  {
    UnpackRun(r.tree, done + r.reports)
  }

  /** One song of `unpack_songs`, seen from the whole run. */
  lemma UnpackTurn(done: seq<UnpackReport>, t: Tree, songs: seq<Song>, i: nat,
                   extract: (Bytes, Path) -> ExtractResult, mkdirOk: bool)
    requires i < |songs|
    ensures var t1 := CreateDirEffect(t, UNPACKED_PATH, mkdirOk);
            var path := ArchivePath(songs[i].hash);
            ResumeUnpack(done, UnpackAll(t, songs[i..], extract, mkdirOk)) ==
              ResumeUnpack(done + [UnpackZipReport(t1, extract, path, songs[i].hash)],
                           UnpackAll(UnpackZipEffect(t1, extract, path, songs[i].hash), songs[i + 1..], extract, mkdirOk))
  {
    assert songs[i..][0] == songs[i] && songs[i..][1..] == songs[i + 1..];
    var t1 := CreateDirEffect(t, UNPACKED_PATH, mkdirOk);
    var path := ArchivePath(songs[i].hash);
    var rest := UnpackAll(UnpackZipEffect(t1, extract, path, songs[i].hash), songs[i + 1..], extract, mkdirOk);
    assert done + ([UnpackZipReport(t1, extract, path, songs[i].hash)] + rest.reports) ==
           (done + [UnpackZipReport(t1, extract, path, songs[i].hash)]) + rest.reports;
  }

  /** `unpack_songs` (src/downloader.rs:172-177): for every song, in order,
      `create_dir(UNPACKED_PATH)` and then `unpack_zip` of its archive. */
  method UnpackSongs(fs: Disk, songs: seq<Song>, extract: (Bytes, Path) -> ExtractResult, mkdirOk: bool)
    returns (reports: seq<UnpackReport>)
    modifies fs
    ensures UnpackRun(fs.State(), reports) == UnpackAll(old(fs.State()), songs, extract, mkdirOk)
  {
    reports := [];
    ghost var run := UnpackAll(fs.State(), songs, extract, mkdirOk);
    for i := 0 to |songs|
      invariant run == ResumeUnpack(reports, UnpackAll(fs.State(), songs[i..], extract, mkdirOk))
    {
      UnpackTurn(reports, fs.State(), songs, i, extract, mkdirOk);
      CreateDir(fs, UNPACKED_PATH, mkdirOk);
      var report := UnpackZip(fs, extract, ArchivePath(songs[i].hash), songs[i].hash);
      reports := reports + [report];
    }
    assert songs[|songs|..] == [];
  }
}
