/**
 * The handle an asynchronous handler is given for one exchange
 * (`AsyncHandleImpl`): registering a request-body listener and a
 * response-completed listener, writing body data with a callback or a
 * future, and completing the exchange.
 *
 * The handle's two listener fields are the only state. Everything the handle
 * calls out to (the request, the response, the error renderer, the listeners
 * and callbacks) is represented by the effect it is asked for, and by an
 * `Outcome` input saying whether that call returned or threw. Java's
 * `try`/`catch`/`finally` rules are written out: a `finally` block that throws
 * replaces the exception in flight, and `catch (Exception …)` does not catch
 * an `Error`.
 */
module AsyncHandle {
  import opened Wrappers

  /** A thrown Java object: an `Exception` (caught by `catch (Exception …)`) or an `Error` (not). */
  datatype Throwable = Exception(id: nat) | Error(id: nat)

  /** What a call out of the handle did. */
  datatype Outcome = Ok | Raise(thrown: Throwable)

  /** A registered listener, by identity. */
  type ListenerId = nat

  /** The handle's fields; `None` is Java's `null`. */
  datatype Handle = Handle(readListener: Option<ListenerId>, completedListener: Option<ListenerId>)

  const NEW_HANDLE: Handle := Handle(None, None)

  /** A call the handle makes, in the order it makes them. */
  datatype Event =
    | RequestReadListener(registered: Option<ListenerId>) // request.setReadListener
    | RenderError(cause: Throwable)                       // the unhandled-exception renderer
    | FinishResponse(error: bool)                         // response.complete(error)
    | NotifyCompleted(listener: ListenerId, complete: bool)
    | SendBody(data: seq<bv8>)                            // response.sendBodyData
    | OnSuccess
    | OnFailure(cause: Throwable)
    | ReadComplete(listener: ListenerId)
    | ReadError(listener: ListenerId, cause: Throwable)

  /** The calls made by one operation, and what it threw to its caller, if anything. */
  datatype Run = Run(events: seq<Event>, escaped: Option<Throwable>)

  /** How a write future ended. */
  datatype FutureState = Done | Failed(cause: Throwable)

  // ----- listeners ------------------------------------------------------------------------

  /** `setReadListener`: remembers the listener and passes it on to the request. */
  function SetReadListener(h: Handle, l: Option<ListenerId>): (r: (Handle, seq<Event>))
    ensures r.0.readListener == l && r.0.completedListener == h.completedListener
    ensures r.1 == [RequestReadListener(l)]
  {
    (h.(readListener := l), [RequestReadListener(l)])
  }

  /** `setResponseCompletedHandler`: remembers the listener; nothing else happens. */
  function SetResponseCompletedHandler(h: Handle, l: Option<ListenerId>): (r: Handle)
    ensures r.completedListener == l && r.readListener == h.readListener
  {
    h.(completedListener := l)
  }

  /** Several `setReadListener` calls in a row, with the calls they pass on. */
  function SetReadListeners(h: Handle, ls: seq<Option<ListenerId>>): (r: (Handle, seq<Event>))
    decreases |ls|
  {
    if |ls| == 0 then (h, [])
    else
      var (h1, e1) := SetReadListener(h, ls[0]);
      var (h2, e2) := SetReadListeners(h1, ls[1..]);
      (h2, e1 + e2)
  }

  /**
   * Re-registering is allowed and the last registration wins; the request is
   * told about every registration, in order; the completed listener is untouched.
   */
  lemma {:induction false} ReadListenerLastWins(h: Handle, ls: seq<Option<ListenerId>>)
    ensures var r := SetReadListeners(h, ls);
            && r.0.readListener == (if |ls| == 0 then h.readListener else ls[|ls| - 1])
            && r.0.completedListener == h.completedListener
            && |r.1| == |ls|
            && (forall k :: 0 <= k < |ls| ==> r.1[k] == RequestReadListener(ls[k]))
    decreases |ls|
  {
    if |ls| > 0 {
      var h1 := SetReadListener(h, ls[0]).0;
      ReadListenerLastWins(h1, ls[1..]);
      var e2 := SetReadListeners(h1, ls[1..]).1;
      assert forall k :: 1 <= k < |ls| ==> ([RequestReadListener(ls[0])] + e2)[k] == e2[k - 1];
    }
  }

  /** The two listeners are independent: registering them in either order gives the same handle. */
  lemma SettersCommute(h: Handle, read: Option<ListenerId>, completed: Option<ListenerId>)
    ensures SetResponseCompletedHandler(SetReadListener(h, read).0, completed)
            == SetReadListener(SetResponseCompletedHandler(h, completed), read).0
  {
  }

  // ----- completion -----------------------------------------------------------------------

  /** `onResponseComplete`: tells the completed listener, if there is one, whether the exchange completed cleanly. */
  function OnResponseComplete(h: Handle, complete: bool): (r: seq<Event>)
    ensures h.completedListener.None? <==> r == []
    ensures h.completedListener.Some? ==> r == [NotifyCompleted(h.completedListener.value, complete)]
  {
    match h.completedListener
    case None => []
    case Some(l) => [NotifyCompleted(l, complete)]
  }

  /**
   * `complete(cause)`: with a cause, the error is rendered first; then, in the
   * `finally` block, the response is finished (marked as errored exactly when
   * there is a cause) and the completed listener is told. `render`, `finish`
   * and `notify` say whether each of those calls threw. A throwing `finish`
   * ends the `finally` block before the listener is told, and an exception
   * from the `finally` block replaces the one from rendering.
   */
  function Complete(h: Handle, cause: Option<Throwable>, render: Outcome, finish: Outcome, notify: Outcome): (r: Run)
    ensures var rendered := if cause.Some? then [RenderError(cause.value)] else [];
            && |r.events| >= |rendered| + 1
            && r.events[..|rendered|] == rendered
            && r.events[|rendered|] == FinishResponse(cause.Some?)
            && (finish.Raise? ==> |r.events| == |rendered| + 1)
    ensures forall c :: RenderError(c) in r.events <==> cause == Some(c)
    ensures forall l: ListenerId, b :: NotifyCompleted(l, b) in r.events <==>
              finish.Ok? && h.completedListener == Some(l) && b == cause.None?
    ensures r.escaped.Some? ==>
              || Raise(r.escaped.value) == finish
              || (finish.Ok? && h.completedListener.Some? && Raise(r.escaped.value) == notify)
              || (cause.Some? && Raise(r.escaped.value) == render)
    ensures finish.Raise? ==> r.escaped == Some(finish.thrown)
    ensures finish.Ok? ==>
              r.escaped == if h.completedListener.Some? && notify.Raise? then Some(notify.thrown)
                           else if cause.Some? && render.Raise? then Some(render.thrown)
                           else None
  {
    var error := cause.Some?;
    var rendered := if error then [RenderError(cause.value)] else [];
    var pending := if error && render.Raise? then Some(render.thrown) else None;
    if finish.Raise? then
      Run(rendered + [FinishResponse(error)], Some(finish.thrown))
    else
      var notified := OnResponseComplete(h, !error);
      var escaped := if notified != [] && notify.Raise? then Some(notify.thrown) else pending;
      Run(rendered + [FinishResponse(error)] + notified, escaped)
  }

  /**
   * `complete()`: completion without a cause renders nothing, finishes the
   * response as not errored, tells the listener (if any) that the exchange
   * completed cleanly, and throws only what finishing or the listener threw.
   */
  function CompleteCleanly(h: Handle, finish: Outcome, notify: Outcome): (r: Run)
    ensures |r.events| > 0 && r.events[0] == FinishResponse(false)
    ensures forall c :: RenderError(c) !in r.events
    ensures finish.Ok? && h.completedListener.Some? ==> r.events == [FinishResponse(false), NotifyCompleted(h.completedListener.value, true)]
    ensures finish.Ok? && h.completedListener.Some? && notify.Ok? ==> r.escaped.None?
    ensures finish.Ok? && h.completedListener.None? ==> r == Run([FinishResponse(false)], None)
  {
    Complete(h, None, Ok, finish, notify)
  }

  /**
   * Finalisation survives a failing renderer: the response is still finished
   * as errored and the listener still told, and the renderer's exception then
   * reaches the caller unless the `finally` block threw its own.
   */
  lemma RenderFailureStillFinalises(h: Handle, cause: Throwable, e: Throwable, notify: Outcome)
    requires h.completedListener.Some?
    ensures var r := Complete(h, Some(cause), Raise(e), Ok, notify);
            && r.events == [RenderError(cause), FinishResponse(true), NotifyCompleted(h.completedListener.value, false)]
            && r.escaped == (if notify.Raise? then Some(notify.thrown) else Some(e))
  {
  }

  // ----- writing ----------------------------------------------------------------------------

  /**
   * `write(data, callback)`: sends the data, then calls `onSuccess`; if sending
   * throws, calls `onFailure` with what it threw. An `Exception` from either
   * callback is swallowed; an `Error` from `onSuccess` is caught by the outer
   * handler and passed to `onFailure`; an `Error` from `onFailure` reaches the caller.
   */
  function Write(data: seq<bv8>, send: Outcome, success: Outcome, failure: Outcome): (r: Run)
    ensures |r.events| > 0 && r.events[0] == SendBody(data)
    ensures OnSuccess in r.events <==> send.Ok?
    ensures forall t :: OnFailure(t) in r.events <==> send == Raise(t) || (send.Ok? && success == Raise(t) && t.Error?)
    ensures r.escaped.Some? ==> r.escaped.value.Error? && Raise(r.escaped.value) == failure
    ensures r.escaped.Some? ==> exists t :: OnFailure(t) in r.events
    ensures r.escaped == if (send.Raise? || (success.Raise? && success.thrown.Error?)) && failure.Raise? && failure.thrown.Error?
                         then Some(failure.thrown) else None
  {
    var failed :=
      if send.Raise? then Some(send.thrown)
      else if success.Raise? && success.thrown.Error? then Some(success.thrown)
      else None;
    var first := if send.Ok? then [SendBody(data), OnSuccess] else [SendBody(data)];
    match failed
    case None => Run(first, None)
    case Some(t) =>
      var escaped := if failure.Raise? && failure.thrown.Error? then Some(failure.thrown) else None;
      Run(first + [OnFailure(t)], escaped)
  }

  /** `write(data)`: a future that completes normally when sending returns, and exceptionally with what sending threw. */
  function WriteFuture(data: seq<bv8>, send: Outcome): (r: (seq<Event>, FutureState))
    ensures r.0 == [SendBody(data)]
    ensures r.1 == Done <==> send.Ok?
    ensures forall t :: r.1 == Failed(t) <==> send == Raise(t)
  {
    ([SendBody(data)], if send.Ok? then Done else Failed(send.thrown))
  }

  /**
   * The two writes agree: with callbacks that return normally, the callback
   * gets `onSuccess` exactly when the future completes normally, and
   * `onFailure(t)` exactly when the future fails with `t`; neither write ever
   * throws to its caller.
   */
  lemma WritesAgree(data: seq<bv8>, send: Outcome)
    ensures var r := Write(data, send, Ok, Ok);
            var f := WriteFuture(data, send);
            && r.escaped.None?
            && (OnSuccess in r.events <==> f.1 == Done)
            && (forall t :: OnFailure(t) in r.events <==> f.1 == Failed(t))
            && r.events[..1] == f.0
  {
  }

  /** An `Exception` thrown by a callback never reaches the caller of `write`. */
  lemma CallbackExceptionsAreSwallowed(data: seq<bv8>, send: Outcome, success: Outcome, failure: Outcome)
    requires success.Ok? || success.thrown.Exception?
    requires failure.Ok? || failure.thrown.Exception?
    ensures Write(data, send, success, failure).escaped.None?
    ensures send.Ok? ==> Write(data, send, success, failure).events == [SendBody(data), OnSuccess]
  {
  }

  /** An `Error` from `onSuccess` makes the callback hear both `onSuccess` and `onFailure`. */
  lemma SuccessErrorAlsoFails(data: seq<bv8>, e: nat, failure: Outcome)
    ensures Write(data, Ok, Raise(Error(e)), failure).events == [SendBody(data), OnSuccess, OnFailure(Error(e))]
  {
  }

  // ----- the request body -------------------------------------------------------------------

  /** `onReadComplete(cause)`: the read listener, if any, hears `onComplete` when there is no cause and `onError(cause)` otherwise — never both. */
  function OnReadComplete(h: Handle, cause: Option<Throwable>): (r: seq<Event>)
    ensures |r| <= 1
    ensures r == [] <==> h.readListener.None?
    ensures forall l: ListenerId :: ReadComplete(l) in r <==> h.readListener == Some(l) && cause.None?
    ensures forall l: ListenerId, t :: ReadError(l, t) in r <==> h.readListener == Some(l) && cause == Some(t)
  {
    match h.readListener
    case None => []
    case Some(l) => if cause.None? then [ReadComplete(l)] else [ReadError(l, cause.value)]
  }

  /** The end of the body goes to the listener registered last, and the completed listener plays no part. */
  lemma ReadEndReachesLastListener(h: Handle, ls: seq<Option<ListenerId>>, completed: Option<ListenerId>, cause: Option<Throwable>)
    requires |ls| > 0 && ls[|ls| - 1].Some?
    ensures var h1 := SetResponseCompletedHandler(SetReadListeners(h, ls).0, completed);
            OnReadComplete(h1, cause)
            == [if cause.None? then ReadComplete(ls[|ls| - 1].value) else ReadError(ls[|ls| - 1].value, cause.value)]
  {
    ReadListenerLastWins(h, ls);
  }

  // ----- completing more than once -----------------------------------------------------------

  /** One call of `complete`, with what its collaborators did. */
  datatype CompleteCall = CompleteCall(cause: Option<Throwable>, render: Outcome, finish: Outcome, notify: Outcome)

  /** How many times a completed listener was told. */
  function Notifications(es: seq<Event>): (n: nat)
    ensures n <= |es|
    decreases |es|
  {
    if |es| == 0 then 0
    else (if es[|es| - 1].NotifyCompleted? then 1 else 0) + Notifications(es[..|es| - 1])
  }

  lemma {:induction false} NotificationsConcat(a: seq<Event>, b: seq<Event>)
    ensures Notifications(a + b) == Notifications(a) + Notifications(b)
    decreases |b|
  {
    if |b| == 0 {
      assert a + b == a;
    } else {
      assert (a + b)[..|a + b| - 1] == a + b[..|b| - 1];
      NotificationsConcat(a, b[..|b| - 1]);
    }
  }

  /** The handle as written: every call of `complete` runs in full. */
  function CompleteAll(h: Handle, calls: seq<CompleteCall>): seq<Event>
    decreases |calls|
  {
    if |calls| == 0 then []
    else
      var c := calls[0];
      Complete(h, c.cause, c.render, c.finish, c.notify).events + CompleteAll(h, calls[1..])
  }

  /**
   * As written, the handle keeps no record of having completed: completing
   * cleanly and then with a cause tells the listener twice, with opposite flags.
   */
  lemma CompletingTwiceNotifiesTwice(l: ListenerId, cause: Throwable)
    ensures var es := CompleteAll(Handle(None, Some(l)), [CompleteCall(None, Ok, Ok, Ok), CompleteCall(Some(cause), Ok, Ok, Ok)]);
            && Notifications(es) == 2
            && NotifyCompleted(l, true) in es && NotifyCompleted(l, false) in es
  {
    var a := CleanEvents(l);
    var b := FailedEvents(l, cause);
    TwoCompletions(l, cause);
    NotificationsConcat(a, b);
    CleanNotifiesOnce(l);
    FailedNotifiesOnce(l, cause);
  }

  function CleanEvents(l: ListenerId): seq<Event> {
    [FinishResponse(false), NotifyCompleted(l, true)]
  }

  function FailedEvents(l: ListenerId, cause: Throwable): seq<Event> {
    [RenderError(cause), FinishResponse(true), NotifyCompleted(l, false)]
  }

  lemma TwoCompletions(l: ListenerId, cause: Throwable)
    ensures CompleteAll(Handle(None, Some(l)), [CompleteCall(None, Ok, Ok, Ok), CompleteCall(Some(cause), Ok, Ok, Ok)])
            == CleanEvents(l) + FailedEvents(l, cause)
  {
    var h := Handle(None, Some(l));
    var calls := [CompleteCall(None, Ok, Ok, Ok), CompleteCall(Some(cause), Ok, Ok, Ok)];
    assert Complete(h, None, Ok, Ok, Ok).events == CleanEvents(l);
    assert Complete(h, Some(cause), Ok, Ok, Ok).events == FailedEvents(l, cause);
    assert calls[1..] == [CompleteCall(Some(cause), Ok, Ok, Ok)];
    assert CompleteAll(h, calls[1..]) == FailedEvents(l, cause) + [];
    assert FailedEvents(l, cause) + [] == FailedEvents(l, cause);
  }

  lemma CleanNotifiesOnce(l: ListenerId)
    ensures Notifications(CleanEvents(l)) == 1
  {
    assert CleanEvents(l)[..1] == [FinishResponse(false)];
  }

  lemma FailedNotifiesOnce(l: ListenerId, cause: Throwable)
    ensures Notifications(FailedEvents(l, cause)) == 1
  {
    var b2 := [RenderError(cause), FinishResponse(true)];
    assert FailedEvents(l, cause)[..2] == b2;
    assert b2[..1] == [RenderError(cause)];
    assert [RenderError(cause)][..0] == [];
    assert Notifications(b2) == 0;
  }

  /** The handle with a completed flag: the first `complete` runs, later ones do nothing. */
  datatype GuardedHandle = GuardedHandle(handle: Handle, completed: bool)

  function CompleteGuarded(g: GuardedHandle, c: CompleteCall): (r: (GuardedHandle, Run))
    ensures r.0 == g.(completed := true)
    ensures g.completed ==> r.1 == Run([], None)
  {
    if g.completed then (g, Run([], None))
    else (g.(completed := true), Complete(g.handle, c.cause, c.render, c.finish, c.notify))
  }

  function CompleteAllGuarded(g: GuardedHandle, calls: seq<CompleteCall>): seq<Event>
    decreases |calls|
  {
    if |calls| == 0 then []
    else
      var (g1, r) := CompleteGuarded(g, calls[0]);
      r.events + CompleteAllGuarded(g1, calls[1..])
  }

  /** Once completed, further calls of `complete` do nothing. */
  lemma {:induction false} CompletedStaysQuiet(g: GuardedHandle, calls: seq<CompleteCall>)
    requires g.completed
    ensures CompleteAllGuarded(g, calls) == []
    decreases |calls|
  {
    if |calls| > 0 {
      CompletedStaysQuiet(g, calls[1..]);
    }
  }

  lemma NotificationsOfComplete(h: Handle, c: CompleteCall)
    ensures Notifications(Complete(h, c.cause, c.render, c.finish, c.notify).events)
            == (if c.finish.Ok? && h.completedListener.Some? then 1 else 0)
  {
    var rendered := if c.cause.Some? then [RenderError(c.cause.value)] else [];
    var fin := rendered + [FinishResponse(c.cause.Some?)];
    assert Notifications(rendered) == 0;
    NotificationsConcat(rendered, [FinishResponse(c.cause.Some?)]);
    assert Notifications([FinishResponse(c.cause.Some?)]) == 0;
    if c.finish.Ok? {
      var notified := OnResponseComplete(h, c.cause.None?);
      NotificationsConcat(fin, notified);
      if notified != [] {
        assert Notifications(notified) == 1 by {
          assert notified[..0] == [];
        }
      }
    }
  }

  /**
   * With the flag, however many times `complete` is called, the listener is
   * told at most once, and it is told by the first call — with that call's
   * outcome — whenever the first call's `finally` block gets that far.
   */
  lemma NotifiesAtMostOnce(h: Handle, calls: seq<CompleteCall>)
    requires |calls| > 0
    ensures var es := CompleteAllGuarded(GuardedHandle(h, false), calls);
            && Notifications(es) <= 1
            && es == Complete(h, calls[0].cause, calls[0].render, calls[0].finish, calls[0].notify).events
            && (forall l: ListenerId, b :: NotifyCompleted(l, b) in es <==>
                  calls[0].finish.Ok? && h.completedListener == Some(l) && b == calls[0].cause.None?)
  {
    var g := GuardedHandle(h, false);
    CompletedStaysQuiet(g.(completed := true), calls[1..]);
    var first := Complete(h, calls[0].cause, calls[0].render, calls[0].finish, calls[0].notify).events;
    assert CompleteAllGuarded(g, calls) == first + [];
    assert first + [] == first;
    NotificationsOfComplete(h, calls[0]);
  }
}
