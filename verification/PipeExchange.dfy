/** Framed exchanges over arbitrary partial reads and writes (scripts/cass_lexical_ipc.py,
    scripts/benchmark_quill_query_fuel.py). A peer is the stream of bytes it will ever send; the
    schedule decides how much of it each system call delivers. */
module PipeExchange {
  import opened Prelude
  import opened Framing

  const NEWLINE: Byte := 10
  const CHUNK := 65536

  datatype Trouble = Timeout | Truncated | TooLarge | ExtraData | ClosedInput

  function Min(a: int, b: int): int { if a < b then a else b }

  /** The next bytes of a stream: at least one unless the stream has ended. */
  method Deliver(stream: Bytes, at: nat, size: nat) returns (chunk: Bytes)
    requires at <= |stream|
    ensures |chunk| <= size + 1 && at + |chunk| <= |stream|
    ensures stream[..at] + chunk == stream[..at + |chunk|]
    ensures chunk == [] <==> at == |stream|
  {
    chunk := stream[at..Min(|stream|, at + size + 1)];
  }

  /** `data.split(b"\n", 1)`: the position of the first newline. */
  function FirstNewline(data: Bytes): (r: nat)
    requires NEWLINE in data
    ensures r < |data| && data[r] == NEWLINE && NEWLINE !in data[..r]
  {
    if data[0] == NEWLINE then 0 else
      var r := 1 + FirstNewline(data[1..]);
      assert data[..r] == [data[0]] + data[1..][..r - 1];
      r
  }

  /** One line and its newline. */
  predicate SingleFrame(stream: Bytes) {
    stream != [] && stream[|stream| - 1] == NEWLINE && NEWLINE !in stream[..|stream| - 1]
  }

  /** A single frame shows its newline once it has been read to the end, and never before. */
  lemma FrameEndsTheStream(stream: Bytes, read: nat)
    requires SingleFrame(stream) && read <= |stream|
    ensures NEWLINE in stream[..read] <==> read == |stream|
    ensures read == |stream| ==> FirstNewline(stream[..read]) == |stream| - 1
  {
    var line := stream[..|stream| - 1];
    if read < |stream| {
      assert stream[..read] == line[..read];
    } else {
      assert stream[..read] == stream == line + [NEWLINE];
      var r := FirstNewline(stream);
      assert forall i | 0 <= i < r :: stream[..r][i] != NEWLINE;
      assert forall i | 0 <= i < |line| :: line[i] != NEWLINE;
      assert r <= |line|;
    }
  }

  /** Accept what was read if its one newline is at its end and nothing is left to be written. */
  function Frame(data: Bytes, pending: bool): (r: Result<Bytes, Trouble>)
    requires NEWLINE in data
    ensures r.Success? <==> !pending && FirstNewline(data) == |data| - 1
    ensures r.Success? ==> data == r.value + [NEWLINE] && NEWLINE !in r.value
    ensures r.Failure? ==> r.error == ExtraData && (pending || NEWLINE in data[..|data| - 1])
  {
    var at := FirstNewline(data);
    if at + 1 < |data| || pending then
      assert at + 1 < |data| ==> data[..|data| - 1][at] == NEWLINE;
      Failure(ExtraData)
    else Success(data[..at])
  }

  /** One frame from a connection. The outcome says exactly how far the stream was read and why the
      loop stopped there; a stream that is a single frame is always received whole. */
  method Receive(stream: Bytes, schedule: seq<nat>, limit: nat) returns (r: Result<Bytes, Trouble>, read: nat)
    ensures read <= |stream| && read <= limit + 1
    ensures r.Success? ==> stream[..read] == r.value + [NEWLINE] && NEWLINE !in r.value && read <= limit
    ensures r == Failure(Timeout) ==> NEWLINE !in stream[..read] && |schedule| <= read <= limit
    ensures r == Failure(Truncated) ==> read == |stream| <= limit && NEWLINE !in stream
    ensures r == Failure(TooLarge) ==> read == limit + 1
    ensures r == Failure(ExtraData) ==> 0 < read <= limit && NEWLINE in stream[..read - 1]
    ensures r.Failure? ==> r.error != ClosedInput
    ensures SingleFrame(stream) && |stream| <= limit ==> r == Failure(Timeout) || r == Success(stream[..|stream| - 1])
  {
    var data: Bytes := [];
    read := 0;
    var i := 0;
    while i < |schedule|
      invariant 0 <= i <= |schedule| && read <= |stream| && data == stream[..read]
      invariant i <= read <= limit && NEWLINE !in data
    {
      var room := Min(CHUNK, limit + 1 - |data|);
      var chunk := Deliver(stream, read, Min(schedule[i], room - 1));
      i := i + 1;
      if chunk == [] {
        assert stream[..read] == stream;
        return Failure(Truncated), read;
      }
      data := data + chunk;
      read := read + |chunk|;
      if SingleFrame(stream) { FrameEndsTheStream(stream, read); }
      if |data| > limit { return Failure(TooLarge), read; }
      if NEWLINE in data {
        assert data[..|data| - 1] == stream[..read - 1];
        return Frame(data, false), read;
      }
    }
    r := Failure(Timeout);
  }

  /** One readiness event of the worker's pipes. */
  datatype Event =
    | Writable(accepted: nat)   // the worker's input takes this many bytes at most
    | Readable(size: nat)
    | Blocked                   // a spurious readiness
    | Deadline

  function Count<T>(wanted: T -> bool, s: seq<T>): nat {
    if s == [] then 0 else Count(wanted, s[..|s| - 1]) + if wanted(s[|s| - 1]) then 1 else 0
  }

  lemma CountStep<T>(wanted: T -> bool, s: seq<T>, i: nat)
    requires i < |s|
    ensures Count(wanted, s[..i + 1]) == Count(wanted, s[..i]) + if wanted(s[i]) then 1 else 0
  {
    assert s[..i + 1][..i] == s[..i];
  }

  predicate IsReadable(e: Event) { e.Readable? }

  lemma WriteStep(request: Bytes, sent: nat, count: nat)
    requires sent + count <= |request|
    ensures request[..sent] + request[sent..][..count] == request[..sent + count]
    ensures request[sent..][count..] == request[sent + count..]
  {
  }

  /** One read from the worker's output, and what ends the exchange there. */
  method ReadReply(stream: Bytes, received: Bytes, read: nat, size: nat, limit: nat, pending: bool)
    returns (done: Option<Result<Bytes, Trouble>>, received': Bytes, read': nat)
    requires read <= |stream| && received == stream[..read] && NEWLINE !in received
    ensures read <= read' <= |stream| && received' == stream[..read']
    ensures done.None? ==> NEWLINE !in received' && read < read' <= limit
    ensures done.Some? && done.value.Success? ==>
      !pending && read' <= limit && received' == done.value.value + [NEWLINE] && NEWLINE !in done.value.value
    ensures done.Some? && done.value.Failure? ==> match done.value.error
      case Truncated => read' == |stream| && NEWLINE !in stream
      case TooLarge => read' > limit
      case ExtraData => read' > 0 && NEWLINE in received' && (pending || NEWLINE in stream[..read' - 1])
      case _ => false
    ensures SingleFrame(stream) && |stream| <= limit && done.Some? ==>
      done.value == if pending then Failure(ExtraData) else Success(stream[..|stream| - 1])
  {
    var chunk := Deliver(stream, read, Min(size, CHUNK - 1));
    received', read', done := received + chunk, read + |chunk|, None;
    if SingleFrame(stream) {
      FrameEndsTheStream(stream, read);
      FrameEndsTheStream(stream, read');
    }
    if chunk == [] {
      assert stream[..read] == stream;
      done := Some(Failure(Truncated));
    } else if |received'| > limit {
      done := Some(Failure(TooLarge));
    } else if NEWLINE in received' {
      assert received'[..read' - 1] == stream[..read' - 1];
      done := Some(Frame(received', pending));
    }
  }

  /** The worker exchange: success means that the whole request was written and that what came back
      is exactly one frame. In every case, what was written is a prefix of the request, and the exchange ends at
      the event that ends it: `met` events have been met by then. */
  method ExchangePipes(request: Bytes, stream: Bytes, events: seq<Event>, limit: nat)
    returns (r: Result<Bytes, Trouble>, written: Bytes, read: nat, ghost met: nat)
    requires request != []
    ensures met <= |events| && (r != Failure(Timeout) ==> Deadline !in events[..met])
    ensures r == Failure(Timeout) ==>
      (met == |events| && Deadline !in events) ||
        (met > 0 && events[met - 1] == Deadline && Deadline !in events[..met - 1])
    ensures r == Failure(ClosedInput) ==> met > 0 && events[met - 1] == Writable(0)
    ensures r.Success? || r in {Failure(Truncated), Failure(TooLarge), Failure(ExtraData)} ==>
      met > 0 && events[met - 1].Readable?
    ensures written <= request && read <= |stream|
    ensures r.Success? ==> written == request && read <= limit
    ensures r.Success? ==> stream[..read] == r.value + [NEWLINE] && NEWLINE !in r.value
    ensures r == Failure(Truncated) ==> read == |stream| && NEWLINE !in stream
    ensures r == Failure(TooLarge) ==> read > limit
    ensures r == Failure(ExtraData) ==>
      read > 0 && NEWLINE in stream[..read] && (written != request || NEWLINE in stream[..read - 1])
    ensures r == Failure(ClosedInput) ==> written != request
    ensures r == Failure(Timeout) ==> NEWLINE !in stream[..read] && read <= limit
    ensures r == Failure(Timeout) ==> Deadline in events || Count(IsReadable, events) <= read
    ensures SingleFrame(stream) && |stream| <= limit ==>
      r == Failure(Timeout) || r == Failure(ClosedInput) || (r == Failure(ExtraData) && written != request) ||
        r == Success(stream[..|stream| - 1])
  {
    var data := request;
    var received: Bytes := [];
    written, read, met := [], 0, 0;
    var i := 0;
    while i < |events|
      invariant 0 <= i <= |events| && |written| <= |request| && Deadline !in events[..i]
      invariant written == request[..|written|] && data == request[|written|..]
      invariant read <= |stream| && received == stream[..read] && NEWLINE !in received && read <= limit
      invariant Count(IsReadable, events[..i]) <= read
    {
      CountStep(IsReadable, events, i);
      met := i + 1;
      assert events[..met] == events[..i] + [events[i]];
      match events[i] {
        case Deadline =>
          return Failure(Timeout), written, read, met;
        case Blocked =>
        case Writable(accepted) =>
          if data != [] {
            if accepted == 0 { return Failure(ClosedInput), written, read, met; }
            var count := Min(accepted, |data|);
            WriteStep(request, |written|, count);
            written := written + data[..count];
            data := data[count..];
          }
        case Readable(size) =>
          var done;
          done, received, read := ReadReply(stream, received, read, size, limit, data != []);
          if done.Some? { return done.value, written, read, met; }
      }
      i := i + 1;
    }
    assert events[..|events|] == events;
    r, met := Failure(Timeout), |events|;
  }

  // ---------- Bounded capture of a child's two streams ----------

  datatype Termination = Completed | OutputLimit | DeadlinePassed

  datatype Tick =
    | Expire                              // the time budget is used up
    | Read(fromError: bool, size: nat)    // readiness of standard error or standard output
    | Idle

  predicate ReadsOutput(t: Tick) { t.Read? && !t.fromError }

  predicate ReadsError(t: Tick) { t.Read? && t.fromError }

  const CAPTURE_CHUNK := 16384

  datatype Reading = Ended | Kept | Overflow

  /** One read of one stream, of which at most `room` more bytes are kept. */
  method ReadOnce(stream: Bytes, kept: Bytes, room: nat, size: nat) returns (more: Bytes, reading: Reading)
    requires kept <= stream
    ensures kept <= more <= stream && |more| <= |kept| + room
    ensures reading.Ended? <==> kept == stream
    ensures reading.Kept? ==> |kept| < |more|
    ensures reading.Overflow? ==> |more| == |kept| + room < |stream|
  {
    var chunk := Deliver(stream, |kept|, Min(size, CAPTURE_CHUNK - 1));
    assert stream[..|kept|] == kept;
    if chunk == [] { return kept, Ended; }
    more := kept + chunk[..Min(room, |chunk|)];
    assert more == stream[..|kept| + |chunk|][..|more|];
    reading := if |chunk| > room then Overflow else Kept;
  }

  /** Both streams are retained as exact prefixes within the limit. Unless the deadline passes, the
      verdict does not depend on the schedule: the limit is reported exactly when the two streams
      together exceed it, and otherwise everything is retained. A schedule that keeps reading both
      streams and a child that exits never run into the deadline on their own. */
  method RunBounded(stdout: Bytes, stderr: Bytes, schedule: seq<Tick>, exitsInTime: bool, limit: nat)
    returns (termination: Termination, kept: Bytes, keptError: Bytes, ghost met: nat)
    requires limit >= 1
    ensures met <= |schedule| && (termination != DeadlinePassed ==> Expire !in schedule[..met])
    ensures termination == DeadlinePassed ==>
      (met > 0 && schedule[met - 1] == Expire && Expire !in schedule[..met - 1]) ||
        (Expire !in schedule[..met] && (met == |schedule| || !exitsInTime))
    ensures termination == DeadlinePassed && Expire !in schedule && exitsInTime ==> met == |schedule|
    ensures kept <= stdout && keptError <= stderr && |kept| + |keptError| <= limit
    ensures termination == OutputLimit ==> |kept| + |keptError| == limit
    ensures termination == Completed ==> kept == stdout && keptError == stderr
    ensures termination != DeadlinePassed ==> (termination == OutputLimit <==> |stdout| + |stderr| > limit)
    ensures termination == DeadlinePassed ==>
      (Expire in schedule || !exitsInTime || Count(ReadsOutput, schedule) <= |stdout| ||
        Count(ReadsError, schedule) <= |stderr|)
  {
    kept, keptError, met := [], [], 0;
    var ended, endedError := false, false;
    var i := 0;
    while (!ended || !endedError) && i < |schedule|
      invariant 0 <= i <= |schedule| && met == i && Expire !in schedule[..i]
      invariant kept <= stdout && keptError <= stderr && |kept| + |keptError| <= limit
      invariant (ended ==> kept == stdout) && (endedError ==> keptError == stderr)
      invariant !ended ==> Count(ReadsOutput, schedule[..i]) <= |kept|
      invariant !endedError ==> Count(ReadsError, schedule[..i]) <= |keptError|
    {
      CountStep(ReadsOutput, schedule, i);
      CountStep(ReadsError, schedule, i);
      var tick := schedule[i];
      i := i + 1;
      met := i;
      assert schedule[..i] == schedule[..i - 1] + [tick];
      if tick.Expire? { return DeadlinePassed, kept, keptError, met; }
      var room := limit - |kept| - |keptError|;
      if tick.Read? && !tick.fromError && !ended {
        var more, reading := ReadOnce(stdout, kept, room, tick.size);
        kept := more;
        if reading.Overflow? { return OutputLimit, kept, keptError, met; }
        ended := reading.Ended?;
      } else if tick.Read? && tick.fromError && !endedError {
        var more, reading := ReadOnce(stderr, keptError, room, tick.size);
        keptError := more;
        if reading.Overflow? { return OutputLimit, kept, keptError, met; }
        endedError := reading.Ended?;
      }
    }
    assert i == |schedule| ==> schedule[..i] == schedule;
    if ended && endedError && exitsInTime {
      termination := Completed;
    } else {
      termination := DeadlinePassed;
    }
  }
}
