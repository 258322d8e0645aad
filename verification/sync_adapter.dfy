/**
 * The adapter that runs a list of synchronous handlers for one request
 * (`SyncHandlerAdapter`).
 *
 * When the headers arrive, a body stream is attached if the headers announce
 * a body, and a task is submitted that offers the request to each handler in
 * turn until one takes it, answers 404 when none does, answers 500 when a
 * handler throws before the response has started, and always completes the
 * exchange. The task is modelled as a sequential computation whose result is
 * the trace of effects it causes; what each handler and collaborator does is
 * an input.
 */
module SyncAdapter {
  import opened Wrappers
  import Headers
  import Ascii

  /** What one call of a handler's `handle` did. */
  datatype HandlerOutcome = Handled | NotHandled | Threw(startedSending: bool)

  /**
   * What a collaborator called after the handlers (`send404`, `clean`) did:
   * returned, or threw, with whether the response had started sending by then.
   */
  datatype StepOutcome = Returns | Throws(startedSending: bool)

  /** An observable effect of the task, in the order it happens. */
  datatype Effect =
    | Invoke(handler: nat)
    | Send404
    | CleanRequest
    | SendPlainText(body: string, status: int)
    | Complete

  const SERVER_ERROR_STATUS: int := 500
  const ERROR_ID_PREFIX: string := "ERR-"

  /** The body of the 500 response; `uuid` stands for the random part of the error id. */
  function ServerErrorBody(uuid: string): string {
    "500 Server Error. ErrorID=" + ERROR_ID_PREFIX + uuid
  }

  // ----- the task, as a reference ------------------------------------------------------

  /** The `catch` block: a 500 unless the response has started, then `complete`. */
  function Caught(startedSending: bool, uuid: string): seq<Effect> {
    (if startedSending then [] else [SendPlainText(ServerErrorBody(uuid), SERVER_ERROR_STATUS)]) + [Complete]
  }

  /** `clean()`, then `complete` — through the `catch` block if `clean` throws. */
  function Cleanup(clean: StepOutcome, uuid: string): seq<Effect> {
    [CleanRequest] + (if clean.Throws? then Caught(clean.startedSending, uuid) else [Complete])
  }

  /**
   * The effects of the task when handler `from` is the first of `os` still
   * to be offered the request: the source's control flow, one handler at a time.
   */
  function Dispatch(os: seq<HandlerOutcome>, from: nat, notFound: StepOutcome, clean: StepOutcome, uuid: string): seq<Effect>
    decreases |os|
  {
    if |os| == 0 then
      [Send404] + (if notFound.Throws? then Caught(notFound.startedSending, uuid) else Cleanup(clean, uuid))
    else
      [Invoke(from)] +
      match os[0]
      case Handled => Cleanup(clean, uuid)
      case NotHandled => Dispatch(os[1..], from + 1, notFound, clean, uuid)
      case Threw(started) => Caught(started, uuid)
  }

  function TaskEffects(os: seq<HandlerOutcome>, notFound: StepOutcome, clean: StepOutcome, uuid: string): seq<Effect> {
    Dispatch(os, 0, notFound, clean, uuid)
  }

  // ----- the task, by its parts ---------------------------------------------------------

  /** No handler takes the request (vacuously so for an empty list). */
  predicate AllDeclined(os: seq<HandlerOutcome>) {
    forall k :: 0 <= k < |os| ==> os[k].NotHandled?
  }

  /** How many handlers are called: up to and including the first that does not return false. */
  function Invoked(os: seq<HandlerOutcome>): (n: nat)
    ensures n <= |os|
    decreases |os|
  {
    if |os| == 0 then 0 else if os[0].NotHandled? then 1 + Invoked(os[1..]) else 1
  }

  /** Every handler before the last one called declined; the last one called is the one that stopped the loop, if any did. */
  lemma {:induction false} InvokedSpec(os: seq<HandlerOutcome>)
    ensures forall k :: 0 <= k < Invoked(os) - 1 ==> os[k].NotHandled?
    ensures AllDeclined(os) ==> Invoked(os) == |os|
    ensures !AllDeclined(os) ==> 0 < Invoked(os) && !os[Invoked(os) - 1].NotHandled?
    decreases |os|
  {
    if |os| > 0 && os[0].NotHandled? {
      InvokedSpec(os[1..]);
      assert forall k :: 1 <= k < |os| ==> os[k] == os[1..][k - 1];
    }
  }

  /** The loop's exit condition pins down how many handlers were called. */
  lemma {:induction false} InvokedAt(os: seq<HandlerOutcome>, i: nat)
    requires i <= |os|
    requires forall k :: 0 <= k < i - 1 ==> os[k].NotHandled?
    requires (i == |os| && AllDeclined(os)) || (0 < i && !os[i - 1].NotHandled?)
    ensures Invoked(os) == i
    decreases |os|
  {
    if |os| > 0 && os[0].NotHandled? {
      assert forall k :: 1 <= k < |os| ==> os[k] == os[1..][k - 1];
      InvokedAt(os[1..], i - 1);
    }
  }

  /** The handler calls, in list order, numbered from `from`. */
  function Calls(from: nat, n: nat): (r: seq<Effect>)
    ensures |r| == n
  {
    seq(n, i requires 0 <= i < n => Invoke(from + i))
  }

  /** Whether `clean()` is reached: a handler took the request, or none did and the 404 went out. */
  predicate CleanupRuns(os: seq<HandlerOutcome>, notFound: StepOutcome) {
    if AllDeclined(os) then notFound.Returns?
    else
      InvokedSpec(os);
      os[Invoked(os) - 1].Handled?
  }

  /** What follows the handler calls. */
  function AfterHandlers(os: seq<HandlerOutcome>, notFound: StepOutcome, clean: StepOutcome, uuid: string): seq<Effect> {
    if AllDeclined(os) then
      [Send404] + (if notFound.Throws? then Caught(notFound.startedSending, uuid) else Cleanup(clean, uuid))
    else
      InvokedSpec(os);
      match os[Invoked(os) - 1]
      case Threw(started) => Caught(started, uuid)
      case _ => Cleanup(clean, uuid)
  }

  lemma CallsCons(from: nat, n: nat)
    ensures Calls(from, n + 1) == [Invoke(from)] + Calls(from + 1, n)
  {
  }

  /** A declining first handler changes neither what stops the loop nor what follows it. */
  lemma {:induction false} DeclinedFirst(os: seq<HandlerOutcome>, notFound: StepOutcome, clean: StepOutcome, uuid: string)
    requires |os| > 0 && os[0].NotHandled?
    ensures Invoked(os) == 1 + Invoked(os[1..])
    ensures AfterHandlers(os, notFound, clean, uuid) == AfterHandlers(os[1..], notFound, clean, uuid)
  {
    var rest := os[1..];
    assert forall k :: 1 <= k < |os| ==> os[k] == rest[k - 1];
    assert AllDeclined(os) <==> AllDeclined(rest);
    if !AllDeclined(os) {
      InvokedSpec(rest);
      assert os[Invoked(os) - 1] == rest[Invoked(rest) - 1];
    }
  }

  /** The task is the handler calls, in order, followed by what the stopping outcome calls for. */
  lemma {:induction false} DispatchSplit(os: seq<HandlerOutcome>, from: nat, notFound: StepOutcome, clean: StepOutcome, uuid: string)
    ensures Dispatch(os, from, notFound, clean, uuid)
            == Calls(from, Invoked(os)) + AfterHandlers(os, notFound, clean, uuid)
    decreases |os|
  {
    if |os| > 0 {
      if os[0].NotHandled? {
        DispatchSplit(os[1..], from + 1, notFound, clean, uuid);
        DeclinedFirst(os, notFound, clean, uuid);
        CallsCons(from, Invoked(os[1..]));
        AppendAssoc([Invoke(from)], Calls(from + 1, Invoked(os[1..])), AfterHandlers(os[1..], notFound, clean, uuid));
      } else {
        StoppedFirst(os, from, notFound, clean, uuid);
      }
    }
  }

  /** A first handler that takes the request or throws is the only one called. */
  lemma StoppedFirst(os: seq<HandlerOutcome>, from: nat, notFound: StepOutcome, clean: StepOutcome, uuid: string)
    requires |os| > 0 && !os[0].NotHandled?
    ensures Dispatch(os, from, notFound, clean, uuid)
            == Calls(from, Invoked(os)) + AfterHandlers(os, notFound, clean, uuid)
  {
    assert !AllDeclined(os);
    assert Invoked(os) == 1;
    assert Calls(from, 1) == [Invoke(from)];
  }

  lemma AppendAssoc<T>(a: seq<T>, b: seq<T>, c: seq<T>)
    ensures a + (b + c) == (a + b) + c
  {
  }

  // ----- what the task promises ---------------------------------------------------------

  /** An exception reached the `catch` block while nothing had been sent. */
  predicate FailsBeforeSending(os: seq<HandlerOutcome>, notFound: StepOutcome, clean: StepOutcome) {
    if AllDeclined(os) then
      notFound == Throws(false) || (notFound.Returns? && clean == Throws(false))
    else
      InvokedSpec(os);
      os[Invoked(os) - 1] == Threw(false) || (os[Invoked(os) - 1].Handled? && clean == Throws(false))
  }

  /**
   * The shape of what follows the handler calls: no handler call, exactly one
   * `complete` and it last, and no plain-text response but the 500.
   */
  predicate Tail(a: seq<Effect>, uuid: string) {
    && |a| > 0 && a[|a| - 1] == Complete
    && (forall k :: 0 <= k < |a| - 1 ==> a[k] != Complete)
    && (forall k :: 0 <= k < |a| ==> !a[k].Invoke?)
    && (forall k :: 0 <= k < |a| && a[k].SendPlainText? ==> a[k] == SendPlainText(ServerErrorBody(uuid), SERVER_ERROR_STATUS))
  }

  lemma PrependTail(x: Effect, a: seq<Effect>, uuid: string)
    requires Tail(a, uuid) && x in {Send404, CleanRequest, SendPlainText(ServerErrorBody(uuid), SERVER_ERROR_STATUS)}
    ensures Tail([x] + a, uuid)
  {
    assert forall k :: 1 <= k < |a| + 1 ==> ([x] + a)[k] == a[k - 1];
  }

  /** The `catch` block sends the 500 exactly when nothing had been sent, and nothing else but `complete`. */
  lemma CaughtShape(started: bool, uuid: string)
    ensures var a := Caught(started, uuid);
            && Tail(a, uuid)
            && Send404 !in a && CleanRequest !in a
            && (SendPlainText(ServerErrorBody(uuid), SERVER_ERROR_STATUS) in a <==> !started)
  {
    assert Tail([Complete], uuid);
    if !started {
      PrependTail(SendPlainText(ServerErrorBody(uuid), SERVER_ERROR_STATUS), [Complete], uuid);
    }
  }

  /** `clean()` always runs; the 500 follows exactly when it throws before anything was sent. */
  lemma CleanupShape(clean: StepOutcome, uuid: string)
    ensures var a := Cleanup(clean, uuid);
            && Tail(a, uuid)
            && Send404 !in a && CleanRequest in a
            && (SendPlainText(ServerErrorBody(uuid), SERVER_ERROR_STATUS) in a <==> clean == Throws(false))
  {
    var b := if clean.Throws? then Caught(clean.startedSending, uuid) else [Complete];
    CaughtShape(if clean.Throws? then clean.startedSending else true, uuid);
    assert Tail([Complete], uuid);
    PrependTail(CleanRequest, b, uuid);
  }

  /**
   * What follows the handler calls: a 404 exactly when every handler declined,
   * `clean()` exactly when it is reached, and a 500 with an `ERR-` id exactly
   * when something threw before the response started.
   */
  lemma AfterHandlersShape(os: seq<HandlerOutcome>, notFound: StepOutcome, clean: StepOutcome, uuid: string)
    ensures var a := AfterHandlers(os, notFound, clean, uuid);
            && Tail(a, uuid)
            && (Send404 in a <==> AllDeclined(os))
            && (CleanRequest in a <==> CleanupRuns(os, notFound))
            && (SendPlainText(ServerErrorBody(uuid), SERVER_ERROR_STATUS) in a <==> FailsBeforeSending(os, notFound, clean))
  {
    InvokedSpec(os);
    if AllDeclined(os) {
      var b := if notFound.Throws? then Caught(notFound.startedSending, uuid) else Cleanup(clean, uuid);
      if notFound.Throws? {
        CaughtShape(notFound.startedSending, uuid);
      } else {
        CleanupShape(clean, uuid);
      }
      PrependTail(Send404, b, uuid);
    } else {
      match os[Invoked(os) - 1]
      case Threw(started) => CaughtShape(started, uuid);
      case _ => CleanupShape(clean, uuid);
    }
  }

  /** Handler calls followed by a tail: the tail decides membership of everything but handler calls. */
  lemma CallsThenTail(n: nat, a: seq<Effect>, uuid: string)
    requires Tail(a, uuid)
    ensures var t := Calls(0, n) + a;
            && |t| > 0 && t[|t| - 1] == Complete
            && (forall k :: 0 <= k < |t| - 1 ==> t[k] != Complete)
            && (forall k :: 0 <= k < |t| && t[k].SendPlainText? ==> t[k] == SendPlainText(ServerErrorBody(uuid), SERVER_ERROR_STATUS))
            && t[..n] == Calls(0, n)
            && (forall j: nat :: Invoke(j) in t <==> j < n)
            && (forall x: Effect :: !x.Invoke? ==> (x in t <==> x in a))
  {
    var t := Calls(0, n) + a;
    assert forall k :: n <= k < |t| ==> t[k] == a[k - n];
    assert forall k :: 0 <= k < n ==> t[k] == Invoke(k);
    forall j: nat
      ensures Invoke(j) in t <==> j < n
    {
      if j < n {
        assert t[j] == Invoke(j);
      }
    }
  }

  /** `complete` happens exactly once, and last, and the only plain-text response is the 500. */
  lemma TaskCompletesOnce(os: seq<HandlerOutcome>, notFound: StepOutcome, clean: StepOutcome, uuid: string)
    ensures var t := TaskEffects(os, notFound, clean, uuid);
            && |t| > 0 && t[|t| - 1] == Complete
            && (forall k :: 0 <= k < |t| - 1 ==> t[k] != Complete)
            && (forall k :: 0 <= k < |t| && t[k].SendPlainText? ==> t[k] == SendPlainText(ServerErrorBody(uuid), SERVER_ERROR_STATUS))
  {
    DispatchSplit(os, 0, notFound, clean, uuid);
    AfterHandlersShape(os, notFound, clean, uuid);
    CallsThenTail(Invoked(os), AfterHandlers(os, notFound, clean, uuid), uuid);
  }

  /**
   * Handlers are called in list order, starting with the first, and handler
   * `j` is called only if every handler before it declined.
   */
  lemma TaskInvokesInOrder(os: seq<HandlerOutcome>, notFound: StepOutcome, clean: StepOutcome, uuid: string)
    ensures var t := TaskEffects(os, notFound, clean, uuid);
            && Invoked(os) <= |t| && t[..Invoked(os)] == Calls(0, Invoked(os))
            && (forall j: nat :: Invoke(j) in t <==> j < Invoked(os))
            && (forall j: nat :: Invoke(j) in t ==> forall k :: 0 <= k < j ==> os[k].NotHandled?)
  {
    DispatchSplit(os, 0, notFound, clean, uuid);
    AfterHandlersShape(os, notFound, clean, uuid);
    CallsThenTail(Invoked(os), AfterHandlers(os, notFound, clean, uuid), uuid);
    InvokedSpec(os);
  }

  /**
   * A 404 goes out exactly when every handler declined (an empty list
   * included), `clean()` runs exactly when it is reached, and a plain-text 500
   * carrying an `ERR-` id goes out exactly when something threw before the
   * response started sending.
   */
  lemma TaskOutcomes(os: seq<HandlerOutcome>, notFound: StepOutcome, clean: StepOutcome, uuid: string)
    ensures var t := TaskEffects(os, notFound, clean, uuid);
            && (Send404 in t <==> AllDeclined(os))
            && (CleanRequest in t <==> CleanupRuns(os, notFound))
            && (SendPlainText(ServerErrorBody(uuid), SERVER_ERROR_STATUS) in t <==> FailsBeforeSending(os, notFound, clean))
  {
    DispatchSplit(os, 0, notFound, clean, uuid);
    AfterHandlersShape(os, notFound, clean, uuid);
    CallsThenTail(Invoked(os), AfterHandlers(os, notFound, clean, uuid), uuid);
  }

  /** The 500's body starts with the fixed text and the `ERR-` prefix, followed by the id. */
  lemma ServerErrorBodyHasId(uuid: string)
    ensures var b := ServerErrorBody(uuid);
            && |b| == 30 + |uuid|
            && b[..26] == "500 Server Error. ErrorID="
            && b[26..30] == ERROR_ID_PREFIX
            && b[30..] == uuid
  {
  }

  // ----- the task, as the loop ------------------------------------------------------------

  /**
   * The task after its loop: the 404 when no handler took the request,
   * `clean()` unless something threw, the 500 when what threw did so before
   * anything was sent, and always `complete`. `handled` and `thrown` are the
   * loop's results: whether the last handler called took the request, and
   * whether it threw (with whether the response had started).
   */
  method FinishTask(os: seq<HandlerOutcome>, handled: bool, thrown: Option<bool>, notFound: StepOutcome, clean: StepOutcome, uuid: string)
    returns (rest: seq<Effect>)
    requires !(handled && thrown.Some?)
    requires handled ==> !AllDeclined(os) && os[Invoked(os) - 1].Handled?
    requires thrown.Some? ==> !AllDeclined(os) && os[Invoked(os) - 1] == Threw(thrown.value)
    requires !handled && thrown.None? ==> AllDeclined(os)
    ensures rest == AfterHandlers(os, notFound, clean, uuid)
  {
    var failed := thrown;
    rest := [];
    if failed.None? && !handled {
      rest := rest + [Send404];
      if notFound.Throws? {
        failed := Some(notFound.startedSending);
      }
    }
    if failed.None? {
      rest := rest + [CleanRequest];
      if clean.Throws? {
        failed := Some(clean.startedSending);
      }
    }
    if failed.Some? && !failed.value {
      rest := rest + [SendPlainText(ServerErrorBody(uuid), SERVER_ERROR_STATUS)];
    }
    rest := rest + [Complete];
  }

  /**
   * The submitted task: offers the request to each handler in turn, stopping
   * at the first that takes it or throws, then answers 404, cleans up or
   * answers 500, and completes.
   */
  method RunTask(os: seq<HandlerOutcome>, notFound: StepOutcome, clean: StepOutcome, uuid: string)
    returns (trace: seq<Effect>)
    ensures trace == TaskEffects(os, notFound, clean, uuid)
    ensures |trace| > 0 && trace[|trace| - 1] == Complete
    ensures Send404 in trace <==> AllDeclined(os)
    ensures SendPlainText(ServerErrorBody(uuid), SERVER_ERROR_STATUS) in trace <==> FailsBeforeSending(os, notFound, clean)
  {
    trace := [];
    var handled := false;
    var thrown: Option<bool> := None;
    var i := 0;
    while i < |os| && !handled && thrown.None?
      invariant 0 <= i <= |os|
      decreases |os| - i
      invariant trace == Calls(0, i)
      invariant handled ==> 0 < i && os[i - 1].Handled?
      invariant thrown.Some? ==> 0 < i && os[i - 1] == Threw(thrown.value)
      invariant !handled && thrown.None? ==> forall k :: 0 <= k < i ==> os[k].NotHandled?
      invariant handled || thrown.Some? ==> forall k :: 0 <= k < i - 1 ==> os[k].NotHandled?
      invariant !(handled && thrown.Some?)
    {
      trace := trace + [Invoke(i)];
      var o := os[i];
      i := i + 1;
      match o
      case Handled => handled := true;
      case NotHandled =>
      case Threw(started) => thrown := Some(started);
    }
    InvokedAt(os, i);
    var rest := FinishTask(os, handled, thrown, notFound, clean, uuid);
    trace := trace + rest;
    DispatchSplit(os, 0, notFound, clean, uuid);
    TaskCompletesOnce(os, notFound, clean, uuid);
    TaskOutcomes(os, notFound, clean, uuid);
  }

  // ----- the request's callbacks ------------------------------------------------------------

  type Buffer = seq<bv8>

  /** The body stream: the buffers handed to it so far, and whether it is closed. */
  datatype BodyStream = BodyStream(received: seq<Buffer>, closed: bool)

  /**
   * What the adapter keeps per request: `ctx.state` (the body stream, when
   * there is one) and whether the request's own state has been reset.
   */
  datatype Context = Context(state: Option<BodyStream>, requestStateCleared: bool)

  /** The result of `onHeaders`: its return value, the context after it, and the submitted task's effects. */
  datatype HeadersResult = HeadersResult(accepted: bool, ctx: Context, task: seq<Effect>)

  /** Why a callback cannot run: data arrived although no body stream was attached. */
  datatype AdapterError = NoBodyStream

  /**
   * `onHeaders`: attaches a fresh body stream exactly when the headers announce
   * a body (a transfer-encoding, or a content-length that parses to a positive
   * 32-bit value), runs the task, and accepts the request.
   */
  method OnHeaders(ctx: Context, headers: Headers.MuHeaders, os: seq<HandlerOutcome>, notFound: StepOutcome, clean: StepOutcome, uuid: string)
    returns (r: HeadersResult)
    ensures r.accepted
    ensures Headers.HasBody(headers) ==> r.ctx == ctx.(state := Some(BodyStream([], false)))
    ensures !Headers.HasBody(headers) ==> r.ctx == ctx
    ensures (r.ctx.state.Some? && r.ctx.state.value == BodyStream([], false)) || r.ctx == ctx
    ensures Headers.HasBody(headers) <==>
            || Headers.TRANSFER_ENCODING in headers.all
            || (&& Headers.CONTENT_LENGTH in headers.all
                && |headers.all[Headers.CONTENT_LENGTH]| > 0
                && Ascii.IsNumeral(headers.all[Headers.CONTENT_LENGTH][0])
                && 0 < Ascii.NumeralValue(headers.all[Headers.CONTENT_LENGTH][0]) <= Ascii.INT_MAX)
    ensures r.task == TaskEffects(os, notFound, clean, uuid)
  {
    var c := ctx;
    if Headers.Contains(headers, Headers.TRANSFER_ENCODING) || Headers.GetInt(headers, Headers.CONTENT_LENGTH, -1) > 0 {
      c := c.(state := Some(BodyStream([], false)));
    }
    Headers.HasBodyMeaning(headers);
    var task := RunTask(os, notFound, clean, uuid);
    r := HeadersResult(true, c, task);
  }

  /** `onRequestData`: hands the buffer to the body stream; without one the source fails on a null stream. */
  function OnRequestData(ctx: Context, buffer: Buffer): (r: Result<Context, AdapterError>)
    ensures ctx.state.None? <==> r.Failure?
    ensures r.Success? ==>
              && r.value.state.Some?
              && r.value.state.value.received == ctx.state.value.received + [buffer]
              && r.value.state.value.closed == ctx.state.value.closed
              && r.value.requestStateCleared == ctx.requestStateCleared
  {
    match ctx.state
    case None => Failure(NoBodyStream)
    case Some(s) => Success(ctx.(state := Some(s.(received := s.received + [buffer]))))
  }

  /** Several buffers, handed over one after another. */
  function OnRequestDataAll(ctx: Context, buffers: seq<Buffer>): Result<Context, AdapterError>
    decreases |buffers|
  {
    if |buffers| == 0 then Success(ctx)
    else
      var c :- OnRequestData(ctx, buffers[0]);
      OnRequestDataAll(c, buffers[1..])
  }

  /** The stream receives the buffers in arrival order, after whatever it held. */
  lemma {:induction false} RequestDataInOrder(ctx: Context, buffers: seq<Buffer>)
    requires ctx.state.Some?
    ensures var r := OnRequestDataAll(ctx, buffers);
            && r.Success?
            && r.value.state == Some(ctx.state.value.(received := ctx.state.value.received + buffers))
            && r.value.requestStateCleared == ctx.requestStateCleared
    decreases |buffers|
  {
    if |buffers| > 0 {
      var c := OnRequestData(ctx, buffers[0]).value;
      assert OnRequestDataAll(ctx, buffers) == OnRequestDataAll(c, buffers[1..]);
      assert c.state.value == ctx.state.value.(received := ctx.state.value.received + [buffers[0]]);
      RequestDataInOrder(c, buffers[1..]);
      assert ctx.state.value.received + [buffers[0]] + buffers[1..] == ctx.state.value.received + buffers;
    } else {
      assert ctx.state.value.received + buffers == ctx.state.value.received;
    }
  }

  /**
   * What `close()` on the body stream did: returned, threw an `Exception`
   * (which the `catch (Exception e)` block logs and swallows), or threw an
   * `Error` (which that block does not catch).
   */
  datatype CloseOutcome = Closes | ThrowsException | ThrowsError

  /** The result of `onRequestComplete`: the context after it, and whether an `Error` escaped to its caller. */
  datatype Completion = Completion(ctx: Context, errorEscaped: bool)

  /**
   * `onRequestComplete`: closes the body stream if there is one, then clears
   * the request's state. If closing throws, the state is left as it was; an
   * `Exception` is swallowed and an `Error` reaches the caller.
   */
  function OnRequestComplete(ctx: Context, close: CloseOutcome): (r: Completion)
    ensures ctx.state.None? ==> r == Completion(ctx.(requestStateCleared := true), false)
    ensures ctx.state.Some? && close.Closes? ==>
              r.ctx.state == Some(ctx.state.value.(closed := true)) && r.ctx.requestStateCleared
    ensures ctx.state.Some? && !close.Closes? ==> r.ctx == ctx
    ensures r.ctx.state.Some? ==> r.ctx.state.value.received == ctx.state.value.received
    ensures r.errorEscaped <==> ctx.state.Some? && close.ThrowsError?
  {
    match ctx.state
    case None => Completion(ctx.(requestStateCleared := true), false)
    case Some(s) =>
      match close
      case Closes => Completion(Context(Some(s.(closed := true)), true), false)
      case ThrowsException => Completion(ctx, false)
      case ThrowsError => Completion(ctx, true)
  }

  /**
   * A whole request with a body: the stream attached at the headers gets
   * every buffer in order and is closed at the end, and the request's state
   * is cleared.
   */
  method RequestWithBody(headers: Headers.MuHeaders, buffers: seq<Buffer>, os: seq<HandlerOutcome>, uuid: string)
    returns (last: Context)
    requires Headers.HasBody(headers)
    ensures last == Context(Some(BodyStream(buffers, true)), true)
  {
    var r := OnHeaders(Context(None, false), headers, os, Returns, Returns, uuid);
    RequestDataInOrder(r.ctx, buffers);
    var fed := OnRequestDataAll(r.ctx, buffers);
    assert [] + buffers == buffers;
    last := OnRequestComplete(fed.value, Closes).ctx;
  }

  /** Without an announced body there is no stream: data is refused and completion only clears the state. */
  lemma RequestWithoutBody(ctx: Context, buffer: Buffer, close: CloseOutcome)
    requires ctx.state.None?
    ensures OnRequestData(ctx, buffer).Failure?
    ensures OnRequestComplete(ctx, close) == Completion(ctx.(requestStateCleared := true), false)
  {
  }
}
