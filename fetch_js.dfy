/** The bridged transport of package fetch (gh/internal/fetch/fetch_js.go):
    `Fetch` over the browser's fetch() promise, and the two body readers that
    turn the browser's promise-based body access into blocking Reads.

    Every promise is replaced by the outcome it settles with, passed in as a
    parameter: the event the `select` in Fetch picks, the next chunk a
    ReadableStream read yields, or the whole-buffer result of arrayBuffer(). */
module Fetch {
  import opened Errors

  // ---------------------------------------------------------------------------
  // JavaScript values and errors

  /** The JavaScript values the model distinguishes. An `Object` either has a
      callable `toString` (giving its text) or has none. */
  datatype JsValue =
    | Undefined
    | Null
    | Boolean(b: bool)
    | Number(n: int)
    | Str(s: string)
    | Object(toString: Option<string>)
  {
    /** `js.Value.Type()` is TypeObject (or TypeFunction), the only types `Value.Get` accepts. */
    predicate IsObject() { Object? }
  }

  /** A rejection reason of fetch(): a JavaScript Error, given by what its
      `toString()` returns and by its `cause` property. */
  datatype JsError = JsError(text: string, cause: JsValue)

  /** The failure message as the failure callback computes it; `Panicked`
      stands for the Go panic of `js.Value.Get` on a value that is not an object. */
  datatype Formatting = Formatted(message: string) | Panicked

  /** The failure callback as written: `cause.Get("toString")` is evaluated for
      every defined cause, before the check for a string cause. */
  function FailureDetailAsWritten(e: JsError): (r: Formatting)
    ensures r == Panicked <==> !e.cause.Undefined? && !e.cause.IsObject()
    ensures r.Formatted? ==> |r.message| >= |e.text| && r.message[..|e.text|] == e.text
  {
    if e.cause.Undefined? then Formatted(e.text)
    else if !e.cause.IsObject() then Panicked
    else if e.cause.toString.Some? then Formatted(e.text + ": " + e.cause.toString.value)
    else Formatted(e.text)
  }

  /** The failure message as evidently intended: the error's own text, then,
      one level deep, ": " and the cause's text when the cause is an object with
      `toString` or is a string; any other cause adds nothing. */
  function FailureDetail(e: JsError): (r: string)
    ensures |r| >= |e.text| && r[..|e.text|] == e.text
    ensures r != e.text ==> CauseText(e.cause).Some?
    ensures CauseText(e.cause).Some? ==> r == e.text + ": " + CauseText(e.cause).value
  {
    if e.cause.Undefined? then e.text
    else if e.cause.Object? && e.cause.toString.Some? then e.text + ": " + e.cause.toString.value
    else if e.cause.Str? then e.text + ": " + e.cause.s
    else e.text
  }

  /** The text a cause contributes, if any. */
  function CauseText(cause: JsValue): Option<string>
  {
    match cause
    case Object(Some(t)) => Some(t)
    case Str(s) => Some(s)
    case _ => None
  }

  /** Wherever the as-written callback does not panic it agrees with the
      intended message; it panics exactly on a defined cause that is not an object. */
  lemma FailureDetailAgreement(e: JsError)
    ensures FailureDetailAsWritten(e) == Panicked <==> !e.cause.Undefined? && !e.cause.IsObject()
    ensures FailureDetailAsWritten(e).Formatted? ==> FailureDetailAsWritten(e).message == FailureDetail(e)
  {
  }

  /** A fetch() rejected with an Error whose cause is a plain string (for
      instance `new TypeError("Failed to fetch", {cause: "blocked"})`): the
      intended message carries the cause, the callback as written panics. */
  lemma StringCausePanics(text: string, cause: string)
    ensures FailureDetailAsWritten(JsError(text, Str(cause))) == Panicked
    ensures FailureDetail(JsError(text, Str(cause))) == text + ": " + cause
  {
  }

  /** The error Fetch returns for a rejected fetch(). */
  function FailureError(e: JsError): (err: Error)
    ensures Message(err) == "net/http: fetch() failed: " + FailureDetail(e)
    ensures err.FetchFailed?
  {
    FetchFailed(FailureDetail(e))
  }

  // ---------------------------------------------------------------------------
  // Fetch

  /** The two ways a body is read. */
  datatype BodyStrategy = Streaming | WholeBuffer

  /** The success callback's choice: stream `result.body` when it is neither
      undefined nor null, otherwise fall back to `result.arrayBuffer()`. */
  function ChooseBody(body: JsValue): (s: BodyStrategy)
    ensures s == Streaming <==> !body.Undefined? && !body.Null?
    ensures s == WholeBuffer <==> body.Undefined? || body.Null?
  {
    if !body.Undefined? && !body.Null? then Streaming else WholeBuffer
  }

  /** A settled fetch() promise: the status code and the `body` property. */
  datatype JsResponse = JsResponse(status: int, body: JsValue)

  /** The case the `select` in Fetch takes. */
  datatype Event =
    | ContextDone(reason: ContextError)
    | Resolved(response: JsResponse)
    | Rejected(error: JsError)

  /** A `FetchResponse`: the status code and how its body will be read. */
  datatype FetchResponse = FetchResponse(statusCode: int, body: BodyStrategy)

  /** What Fetch returns, and whether it called `abort()` on its AbortController. */
  datatype FetchOutcome = FetchOutcome(result: Result<FetchResponse>, abortCalled: bool)

  /** Fetch, given whether the environment defines AbortController and the
      event the `select` picks: a done context aborts (when it can) and returns
      the context's error; otherwise the response or the translated rejection. */
  function Fetch(abortControllerDefined: bool, event: Event): (r: FetchOutcome)
    ensures r.abortCalled <==> event.ContextDone? && abortControllerDefined
    ensures r.result.Ok? <==> event.Resolved?
    ensures event.ContextDone? ==> r.result == Err(Context(event.reason))
    ensures event.Rejected? ==> r.result == Err(FailureError(event.error))
    ensures event.Resolved? ==>
      && r.result.value.statusCode == event.response.status
      && (r.result.value.body == Streaming <==> !event.response.body.Undefined? && !event.response.body.Null?)
  {
    match event
    case ContextDone(reason) => FetchOutcome(Err(Context(reason)), abortControllerDefined)
    case Resolved(response) =>
      FetchOutcome(Ok(FetchResponse(response.status, ChooseBody(response.body))), false)
    case Rejected(error) => FetchOutcome(Err(FailureError(error)), false)
  }

  /** Whether the goroutine calling Fetch gets an outcome at all: a panic in the
      failure callback ends the program before anything is sent on `errCh`. */
  datatype FetchRun = Completes(outcome: FetchOutcome) | CallbackPanics

  /** Fetch as written: the rejection branch formats its message with the
      callback as written, which panics on a defined cause that is not an object. */
  function FetchAsWritten(abortControllerDefined: bool, event: Event): (r: FetchRun)
    ensures r.CallbackPanics? ==> event.Rejected?
  {
    match event
    case ContextDone(reason) => Completes(FetchOutcome(Err(Context(reason)), abortControllerDefined))
    case Resolved(response) =>
      Completes(FetchOutcome(Ok(FetchResponse(response.status, ChooseBody(response.body))), false))
    case Rejected(error) =>
      match FailureDetailAsWritten(error)
      case Panicked => CallbackPanics
      case Formatted(message) => Completes(FetchOutcome(Err(FetchFailed(message)), false))
  }

  /** Fetch as written never returns exactly when fetch() is rejected with a
      defined cause that is not an object (a string, null, a number, a boolean);
      whenever it does return, it returns what the corrected Fetch returns. */
  lemma FetchAsWrittenAgreement(abortControllerDefined: bool, event: Event)
    ensures FetchAsWritten(abortControllerDefined, event).CallbackPanics? <==>
      event.Rejected? && !event.error.cause.Undefined? && !event.error.cause.IsObject()
    ensures FetchAsWritten(abortControllerDefined, event).Completes? ==>
      FetchAsWritten(abortControllerDefined, event).outcome == Fetch(abortControllerDefined, event)
  {
    if event.Rejected? {
      FailureDetailAgreement(event.error);
    }
  }

  // ---------------------------------------------------------------------------
  // The readers, as step functions on their state

  /** How a `reader.read()` promise settles: a chunk, `done`, or a failure. */
  datatype ChunkOutcome = Chunk(bytes: seq<byte>) | Done | ChunkFailed(message: string)

  /** How the `arrayBuffer()` promise settles. */
  datatype BufferOutcome = Buffer(bytes: seq<byte>) | BufferFailed(message: string)

  /** What a Read call returns: the bytes copied into `p` (so n == |data|) and the error. */
  datatype ReadReturn = ReadReturn(data: seq<byte>, err: Option<Error>)

  /** The fields of a streamReader. */
  datatype StreamState = StreamState(pending: seq<byte>, err: Option<Error>)

  /** The fields of an arrayReader. */
  datatype ArrayState = ArrayState(pending: seq<byte>, read: bool, err: Option<Error>)

  function Min(a: nat, b: nat): nat { if a < b then a else b }

  /** The bytes a streamReader Read takes from the stream: the chunk it waits
      for when nothing is pending and no error is stored. */
  function Pulled(s: StreamState, next: ChunkOutcome): seq<byte>
  {
    if s.err.None? && |s.pending| == 0 && next.Chunk? then next.bytes else []
  }

  /** streamReader.Read into a buffer of `room` bytes, `next` being the outcome
      of the stream read it issues when nothing is pending. */
  function StreamRead(s: StreamState, room: nat, next: ChunkOutcome): (r: (StreamState, ReadReturn))
    // a stored error is returned again, and nothing changes
    ensures s.err.Some? ==> r == (s, ReadReturn([], s.err))
    // nothing is dropped or duplicated: what was pending plus what was pulled is
    // what was returned plus what is pending now
    ensures s.pending + Pulled(s, next) == r.1.data + r.0.pending
    // as many bytes as fit, and at most that
    ensures r.1.err.None? ==> |r.1.data| == Min(room, |s.pending + Pulled(s, next)|)
    // every error returned is stored, so it is sticky
    ensures r.1.err.Some? ==> r.1.data == [] && r.0.err == r.1.err
    ensures r.1.err.None? ==> r.0.err.None?
    // a `done` chunk is io.EOF, a failed read its message
    ensures s.err.None? && |s.pending| == 0 && next.Done? ==> r.1.err == Some(EndOfFile)
    ensures s.err.None? && |s.pending| == 0 && next.ChunkFailed? ==> r.1.err == Some(ReaderFailed(next.message))
    ensures s.err.None? && (|s.pending| > 0 || next.Chunk?) ==> r.1.err.None?
  {
    if s.err.Some? then (s, ReadReturn([], s.err))
    else if |s.pending| == 0 then
      match next
      case Done => (StreamState(s.pending, Some(EndOfFile)), ReadReturn([], Some(EndOfFile)))
      case ChunkFailed(m) => (StreamState(s.pending, Some(ReaderFailed(m))), ReadReturn([], Some(ReaderFailed(m))))
      case Chunk(b) =>
        var n := Min(room, |b|);
        (StreamState(b[n..], None), ReadReturn(b[..n], None))
    else
      var n := Min(room, |s.pending|);
      (StreamState(s.pending[n..], None), ReadReturn(s.pending[..n], None))
  }

  /** streamReader.Close: store errClosed unless an error (an earlier io.EOF,
      say) is stored already; the pending bytes stay; it returns nil. */
  function StreamClose(s: StreamState): (r: (StreamState, Option<Error>))
    ensures r.1 == None
    ensures r.0.pending == s.pending
    ensures r.0.err.Some?
    ensures s.err.Some? ==> r.0.err == s.err
    ensures s.err.None? ==> r.0.err == Some(ReaderClosed)
  {
    (StreamState(s.pending, if s.err.None? then Some(ReaderClosed) else s.err), None)
  }

  /** After Close, every Read returns the stored error, and nothing else. */
  lemma ReadAfterStreamClose(s: StreamState, room: nat, next: ChunkOutcome)
    ensures var c := StreamClose(s).0;
      StreamRead(c, room, next) == (c, ReadReturn([], c.err))
  {
  }

  /** The bytes a stream yields before it stops, and why it stops: at its first
      `done` or failure, or at its end (where a read would report `done`). */
  function Flatten(src: seq<ChunkOutcome>): seq<byte>
  {
    if src == [] || !src[0].Chunk? then [] else src[0].bytes + Flatten(src[1..])
  }

  function StopError(src: seq<ChunkOutcome>): Error
  {
    if src == [] then EndOfFile
    else match src[0]
      case Done => EndOfFile
      case ChunkFailed(m) => ReaderFailed(m)
      case Chunk(_) => StopError(src[1..])
  }

  /** Reading a streamReader with a `room`-byte buffer until a Read returns an
      error (as io.ReadAll does), the stream delivering the outcomes `src` in
      turn: everything returned, and the error that ended it. */
  function StreamReadAll(s: StreamState, room: nat, src: seq<ChunkOutcome>): (seq<byte>, Error)
    requires room > 0
    decreases |src|, |s.pending|
  {
    var next := if src == [] then Done else src[0];
    var step := StreamRead(s, room, next);
    if step.1.err.Some? then (step.1.data, step.1.err.value)
    else
      var rest := StreamReadAll(step.0, room, if |s.pending| == 0 then src[1..] else src);
      (step.1.data + rest.0, rest.1)
  }

  /** Across Reads nothing is dropped or duplicated: a fresh streamReader read to
      the end returns exactly the bytes of the chunks before the stream stops,
      then io.EOF for `done` or the failure's message. */
  lemma {:induction false} StreamDeliversEverything(pending: seq<byte>, room: nat, src: seq<ChunkOutcome>)
    requires room > 0
    ensures StreamReadAll(StreamState(pending, None), room, src) == (pending + Flatten(src), StopError(src))
    decreases |src|, |pending|, 1
  {
    if pending != [] {
      DeliversPending(pending, room, src);
    } else if src != [] && src[0].Chunk? {
      DeliversChunk(room, src);
      assert pending + Flatten(src) == Flatten(src);
    } else {
      assert Flatten(src) == [] && pending + [] == [];
    }
  }

  /** A Read with bytes at hand (pending, or a chunk just received) takes as many as fit. */
  lemma StreamReadTakes(s: StreamState, room: nat, next: ChunkOutcome, b: seq<byte>)
    requires s.err.None?
    requires (s.pending != [] && b == s.pending) || (s.pending == [] && next == Chunk(b))
    ensures var n := Min(room, |b|);
      StreamRead(s, room, next) == (StreamState(b[n..], None), ReadReturn(b[..n], None))
  {
  }

  /** The step of StreamDeliversEverything that serves pending bytes. */
  lemma {:induction false} DeliversPending(pending: seq<byte>, room: nat, src: seq<ChunkOutcome>)
    requires room > 0 && pending != []
    ensures StreamReadAll(StreamState(pending, None), room, src) == (pending + Flatten(src), StopError(src))
    decreases |src|, |pending|, 0
  {
    var s := StreamState(pending, None);
    var n := Min(room, |pending|);
    StreamReadTakes(s, room, if src == [] then Done else src[0], pending);
    StreamDeliversEverything(pending[n..], room, src);
    var rest := StreamReadAll(StreamState(pending[n..], None), room, src);
    assert StreamReadAll(s, room, src) == (pending[..n] + rest.0, rest.1);
    assert pending[..n] + (pending[n..] + Flatten(src)) == pending + Flatten(src);
  }

  /** The step of StreamDeliversEverything that waits for a chunk. */
  lemma {:induction false} DeliversChunk(room: nat, src: seq<ChunkOutcome>)
    requires room > 0 && src != [] && src[0].Chunk?
    ensures StreamReadAll(StreamState([], None), room, src) == (Flatten(src), StopError(src))
    decreases |src|, 0, 0
  {
    var s := StreamState([], None);
    var b := src[0].bytes;
    var n := Min(room, |b|);
    StreamReadTakes(s, room, src[0], b);
    StreamDeliversEverything(b[n..], room, src[1..]);
    var rest := StreamReadAll(StreamState(b[n..], None), room, src[1..]);
    assert StreamReadAll(s, room, src) == (b[..n] + rest.0, rest.1);
    assert Flatten(src) == b + Flatten(src[1..]);
    assert StopError(src) == StopError(src[1..]);
    assert b[..n] + (b[n..] + Flatten(src[1..])) == Flatten(src);
  }

  /** arrayReader keeps the buffer it has loaded in `pending`; before the first
      Read nothing is pending. */
  predicate ArrayStateOk(s: ArrayState)
  {
    !s.read ==> s.pending == []
  }

  /** The bytes an arrayReader Read loads: the whole buffer, on the first Read. */
  function Loaded(s: ArrayState, whole: BufferOutcome): seq<byte>
  {
    if s.err.None? && !s.read && whole.Buffer? then whole.bytes else []
  }

  /** arrayReader.Read into a buffer of `room` bytes, `whole` being the outcome
      of the arrayBuffer() promise, which only the first Read waits for. */
  function ArrayRead(s: ArrayState, room: nat, whole: BufferOutcome): (r: (ArrayState, ReadReturn))
    ensures ArrayStateOk(s) ==> ArrayStateOk(r.0)
    // a stored error (only Close stores one) is returned again, and nothing changes
    ensures s.err.Some? ==> r == (s, ReadReturn([], s.err))
    // Read itself never stores an error, and afterwards the buffer counts as loaded
    ensures s.err.None? ==> r.0.err.None? && r.0.read
    // nothing is dropped or duplicated
    ensures ArrayStateOk(s) ==> s.pending + Loaded(s, whole) == r.1.data + r.0.pending
    ensures r.1.err.None? ==> |r.1.data| <= room && (room > 0 ==> |r.1.data| > 0)
    ensures ArrayStateOk(s) && r.1.err.None? ==> |r.1.data| == Min(room, |s.pending + Loaded(s, whole)|)
    ensures r.1.err.Some? ==> r.1.data == []
    // a failed load reports its message; an exhausted buffer is io.EOF
    ensures s.err.None? && !s.read && whole.BufferFailed? ==> r.1.err == Some(ReaderFailed(whole.message))
    ensures ArrayStateOk(s) && s.err.None? && (s.read || whole.Buffer?) ==>
      (r.1.err == Some(EndOfFile) <==> |s.pending + Loaded(s, whole)| == 0)
  {
    if s.err.Some? then (s, ReadReturn([], s.err))
    else if !s.read && whole.BufferFailed? then
      (ArrayState(s.pending, true, s.err), ReadReturn([], Some(ReaderFailed(whole.message))))
    else
      var pending := if !s.read then whole.bytes else s.pending;
      if |pending| == 0 then (ArrayState(pending, true, None), ReadReturn([], Some(EndOfFile)))
      else
        var n := Min(room, |pending|);
        (ArrayState(pending[n..], true, None), ReadReturn(pending[..n], None))
  }

  /** arrayReader.Close: store errClosed unless an error is stored already; it returns nil. */
  function ArrayClose(s: ArrayState): (r: (ArrayState, Option<Error>))
    ensures r.1 == None
    ensures r.0.pending == s.pending && r.0.read == s.read
    ensures s.err.Some? ==> r.0.err == s.err
    ensures s.err.None? ==> r.0.err == Some(ReaderClosed)
  {
    (ArrayState(s.pending, s.read, if s.err.None? then Some(ReaderClosed) else s.err), None)
  }

  /** After Close, every Read returns the stored error, and nothing else. */
  lemma ReadAfterArrayClose(s: ArrayState, room: nat, whole: BufferOutcome)
    ensures var c := ArrayClose(s).0;
      c.err.Some? && ArrayRead(c, room, whole) == (c, ReadReturn([], c.err))
  {
  }

  /** Reading an arrayReader with a `room`-byte buffer until a Read returns an error. */
  function ArrayReadAll(s: ArrayState, room: nat, whole: BufferOutcome): (seq<byte>, Error)
    requires room > 0
    decreases if s.read then 0 else 1, |s.pending|
  {
    var step := ArrayRead(s, room, whole);
    if step.1.err.Some? then (step.1.data, step.1.err.value)
    else
      var rest := ArrayReadAll(step.0, room, whole);
      (step.1.data + rest.0, rest.1)
  }

  lemma {:induction false} ArrayServesPending(s: ArrayState, room: nat, whole: BufferOutcome)
    requires room > 0 && s.read && s.err.None?
    ensures ArrayReadAll(s, room, whole) == (s.pending, EndOfFile)
    decreases |s.pending|
  {
    var step := ArrayRead(s, room, whole);
    assert Loaded(s, whole) == [] && s.pending + [] == s.pending;
    if step.1.err.None? {
      ArrayServesPending(step.0, room, whole);
      var rest := ArrayReadAll(step.0, room, whole);
      assert ArrayReadAll(s, room, whole) == (step.1.data + rest.0, rest.1);
    }
  }

  /** A fresh arrayReader read to the end returns exactly the whole buffer and
      then io.EOF; if the buffer cannot be loaded, the first Read reports why. */
  lemma ArrayDeliversBuffer(room: nat, whole: BufferOutcome)
    requires room > 0
    ensures whole.Buffer? ==> ArrayReadAll(ArrayState([], false, None), room, whole) == (whole.bytes, EndOfFile)
    ensures whole.BufferFailed? ==>
      ArrayReadAll(ArrayState([], false, None), room, whole) == ([], ReaderFailed(whole.message))
  {
    var s := ArrayState([], false, None);
    var step := ArrayRead(s, room, whole);
    if step.1.err.None? {
      ArrayServesPending(step.0, room, whole);
      var rest := ArrayReadAll(step.0, room, whole);
      assert ArrayReadAll(s, room, whole) == (step.1.data + rest.0, rest.1);
      assert [] + whole.bytes == whole.bytes;
    }
  }

  /** A failed load is not stored: the Read after it finds nothing pending and
      reports io.EOF, as if the body had ended normally. */
  lemma ArrayLoadFailureIsNotSticky(room: nat, message: string, room': nat, whole': BufferOutcome)
    ensures var (s1, r1) := ArrayRead(ArrayState([], false, None), room, BufferFailed(message));
      && r1 == ReadReturn([], Some(ReaderFailed(message)))
      && ArrayRead(s1, room', whole') == (s1, ReadReturn([], Some(EndOfFile)))
  {
  }

  // ---------------------------------------------------------------------------
  // The readers as objects

  /** Go's `copy(p, src)`: the first min(len(p), len(src)) bytes, the rest of p untouched. */
  method Copy(p: array<byte>, src: seq<byte>) returns (n: nat)
    modifies p
    ensures n == Min(p.Length, |src|)
    ensures p[..n] == src[..n]
    ensures p[n..] == old(p[n..])
  {
    n := Min(p.Length, |src|);
    forall k | 0 <= k < n {
      p[k] := src[k];
    }
  }

  /** streamReader: an io.ReadCloser over a ReadableStream reader. The ghost
      fields record every byte taken from the stream and every byte handed out. */
  class StreamReader {
    var pending: seq<byte>
    var err: Option<Error>
    var cancelCalled: bool
    ghost var received: seq<byte>
    ghost var delivered: seq<byte>

    ghost predicate Valid()
      reads this
    {
      received == delivered + pending
    }

    function State(): StreamState
      reads this
    {
      StreamState(pending, err)
    }

    constructor ()
      ensures Valid() && State() == StreamState([], None)
      ensures !cancelCalled && received == [] && delivered == []
    {
      pending, err, cancelCalled := [], None, false;
      received, delivered := [], [];
    }

    /** Read: return a stored error; when nothing is pending, wait for the next
        chunk (storing io.EOF or a failure); then copy what fits. */
    method Read(p: array<byte>, next: ChunkOutcome) returns (n: nat, e: Option<Error>)
      requires Valid()
      modifies this, p
      ensures Valid()
      ensures n <= p.Length
      ensures (State(), ReadReturn(p[..n], e)) == StreamRead(old(State()), p.Length, next)
      ensures p[n..] == old(p[n..])
      ensures received == old(received) + Pulled(old(State()), next)
      ensures delivered == old(delivered) + p[..n]
      ensures cancelCalled == old(cancelCalled)
    {
      if err.Some? {
        return 0, err;
      }
      if |pending| == 0 {
        match next
        case Done =>
          err := Some(EndOfFile);
          return 0, err;
        case ChunkFailed(m) =>
          err := Some(ReaderFailed(m));
          return 0, err;
        case Chunk(b) =>
          pending := b;
          received := received + b;
      }
      n := Copy(p, pending);
      pending := pending[n..];
      delivered := delivered + p[..n];
      e := None;
    }

    /** Close: cancel the stream, store errClosed unless an error is stored; return nil. */
    method Close() returns (e: Option<Error>)
      requires Valid()
      modifies this
      ensures Valid()
      ensures (State(), e) == StreamClose(old(State()))
      ensures cancelCalled
      ensures received == old(received) && delivered == old(delivered)
    {
      cancelCalled := true;
      if err.None? {
        err := Some(ReaderClosed);
      }
      return None;
    }
  }

  /** arrayReader: an io.ReadCloser over the arrayBuffer() promise. The ghost
      fields record the buffer once loaded and every byte handed out. */
  class ArrayReader {
    var pending: seq<byte>
    var read: bool
    var err: Option<Error>
    ghost var loaded: seq<byte>
    ghost var delivered: seq<byte>

    ghost predicate Valid()
      reads this
    {
      && loaded == delivered + pending
      && (!read ==> pending == [] && loaded == [])
    }

    function State(): ArrayState
      reads this
    {
      ArrayState(pending, read, err)
    }

    constructor ()
      ensures Valid() && State() == ArrayState([], false, None)
      ensures loaded == [] && delivered == []
    {
      pending, read, err := [], false, None;
      loaded, delivered := [], [];
    }

    /** Read: return a stored error; on the first call wait for the whole buffer;
        report io.EOF once nothing is pending; otherwise copy what fits. */
    method Read(p: array<byte>, whole: BufferOutcome) returns (n: nat, e: Option<Error>)
      requires Valid()
      modifies this, p
      ensures Valid()
      ensures n <= p.Length
      ensures (State(), ReadReturn(p[..n], e)) == ArrayRead(old(State()), p.Length, whole)
      ensures p[n..] == old(p[n..])
      ensures loaded == old(loaded) + Loaded(old(State()), whole)
      ensures delivered == old(delivered) + p[..n]
    {
      if err.Some? {
        return 0, err;
      }
      if !read {
        read := true;
        match whole
        case BufferFailed(m) =>
          return 0, Some(ReaderFailed(m));
        case Buffer(b) =>
          pending := b;
          loaded := b;
      }
      if |pending| == 0 {
        return 0, Some(EndOfFile);
      }
      ghost var avail, d0 := pending, delivered;
      n := Copy(p, pending);
      pending := pending[n..];
      delivered := delivered + p[..n];
      e := None;
      assert p[..n] == avail[..n];
      assert (d0 + avail[..n]) + avail[n..] == d0 + avail;
    }

    /** Close: store errClosed unless an error is stored; return nil. */
    method Close() returns (e: Option<Error>)
      requires Valid()
      modifies this
      ensures Valid()
      ensures (State(), e) == ArrayClose(old(State()))
      ensures loaded == old(loaded) && delivered == old(delivered)
    {
      if err.None? {
        err := Some(ReaderClosed);
      }
      return None;
    }
  }
}
