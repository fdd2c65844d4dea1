/** `Server::handleRequest`: convert the native request, run the application inside
    try/catch/finally, and emit exactly one response. The PHP exception flow is made
    explicit: every collaborator call either returns or fails as a failure oracle
    says, and the try, catch and finally blocks are functions over a small block
    result (events so far, the `$psrResponse` variable, the pending failure). */
module RequestDispatch {
  import opened Wrappers
  import opened Traces
  import opened Psr7
  import opened RequestConverter
  import opened ResponseEmitter

  /** The `ThrowableHandler` wrapping the caught failure, handed to the error catcher. */
  datatype ThrowableHandler = ThrowableHandler(throwable: Throwable)

  /** What the dispatcher does, in order. `EmitBegin` marks a call of `emit`; the
      native calls that emit performed follow it as `Native` events. */
  datatype Event =
    | ResolveApplication
    | ConvertRequest
    | Start
    | Handle(request: ServerRequest)
    | EmitBegin(response: Response)
    | Native(call: NativeCall)
    | ResolveErrorCatcher
    | Process(request: ServerRequest, handler: ThrowableHandler)
    | AfterEmit(emitted: Option<Response>)
    | Shutdown

  predicate IsEmitBegin(e: Event) { e.EmitBegin? }
  predicate IsProcess(e: Event) { e.Process? }
  predicate IsAfterEmit(e: Event) { e.AfterEmit? }
  predicate IsShutdown(e: Event) { e.Shutdown? }
  predicate IsNativeEnd(e: Event) { e.Native? && e.call.End? }
  predicate IsNativeStatus(e: Event) { e.Native? && e.call.Status? }

  /** An `emit` that fails after `completedCalls` native calls succeeded. A failing
      emit never completes its final `end` call. */
  datatype EmitFault = EmitFault(completedCalls: nat, failure: Throwable)

  /** Which collaborator calls fail (`None`: it returns) and what the successful
      ones return. Resolution covers obtaining the container and asking it for
      the service. */
  datatype DispatchOracle = DispatchOracle(
    resolveApplication: Option<Throwable>,
    convert: Option<Throwable>,
    start: Option<Throwable>,
    handle: Option<Throwable>,
    appResponse: Response,
    emitApp: Option<EmitFault>,
    resolveErrorCatcher: Option<Throwable>,
    process: Option<Throwable>,
    errorResponse: Response,
    emitError: Option<EmitFault>,
    afterEmit: Option<Throwable>,
    shutdown: Option<Throwable>)

  /** Where a block left things: its events, the value of `$psrResponse`
      (`None` while unset), and the failure it raised, if any. */
  datatype Block = Block(events: seq<Event>, response: Option<Response>, pending: Option<Throwable>)

  datatype DispatchResult = DispatchResult(events: seq<Event>, outcome: Outcome)

  function Natives(calls: seq<NativeCall>): (t: seq<Event>)
    ensures |t| == |calls|
    ensures forall i :: 0 <= i < |t| ==> t[i] == Native(calls[i])
  {
    seq(|calls|, i requires 0 <= i < |calls| => Native(calls[i]))
  }

  /** The native calls an `emit` of `r` performs: all of them, or, when it fails,
      the ones before the failing call. */
  function EmitCalls(r: Response, fault: Option<EmitFault>): (t: seq<NativeCall>)
    ensures fault.None? ==> t == Emit(r)
    ensures fault.Some? ==> t <= Emit(r) && |t| < |Emit(r)|
    ensures fault.Some? ==> |t| == if fault.value.completedCalls < |Emit(r)| then fault.value.completedCalls else |Emit(r)| - 1
  {
    EmitShape(r);
    match fault
    case None => Emit(r)
    case Some(f) =>
      var all := Emit(r);
      all[..if f.completedCalls < |all| then f.completedCalls else |all| - 1]
  }

  /** One `emit` call as dispatcher events. */
  function EmitEvents(r: Response, fault: Option<EmitFault>): seq<Event> {
    [EmitBegin(r)] + Natives(EmitCalls(r, fault))
  }

  function FaultFailure(fault: Option<EmitFault>): Option<Throwable> {
    match fault case Some(f) => Some(f.failure) case None => None
  }

  /** The try block: start, handle, emit the application's response. */
  function TryBlock(req: ServerRequest, o: DispatchOracle): (b: Block)
    ensures |b.events| >= 1 && b.events[0] == Start
    ensures o.start.None? ==> |b.events| >= 2 && b.events[1] == Handle(req)
    ensures b.response.Some? <==> o.start.None? && o.handle.None?
    ensures b.response.Some? ==> b.response.value == o.appResponse
    ensures b.pending.None? <==> o.start.None? && o.handle.None? && o.emitApp.None?
  {
    if o.start.Some? then Block([Start], None, o.start)
    else if o.handle.Some? then Block([Start, Handle(req)], None, o.handle)
    else Block([Start, Handle(req)] + EmitEvents(o.appResponse, o.emitApp),
               Some(o.appResponse), FaultFailure(o.emitApp))
  }

  /** The catch block for failure `caught`, entered with `$psrResponse` = `response`:
      resolve the error catcher, let it process the request with a throwable
      handler, emit what it returned. `$psrResponse` only changes when `process`
      returns. */
  function CatchBlock(req: ServerRequest, caught: Throwable, o: DispatchOracle, response: Option<Response>): (b: Block)
    ensures |b.events| >= 1 && b.events[0] == ResolveErrorCatcher
    ensures o.resolveErrorCatcher.None? ==> |b.events| >= 2 && b.events[1] == Process(req, ThrowableHandler(caught))
    ensures b.response == if o.resolveErrorCatcher.None? && o.process.None? then Some(o.errorResponse) else response
    ensures b.pending.None? <==> o.resolveErrorCatcher.None? && o.process.None? && o.emitError.None?
  {
    var handler := ThrowableHandler(caught);
    if o.resolveErrorCatcher.Some? then Block([ResolveErrorCatcher], response, o.resolveErrorCatcher)
    else if o.process.Some? then Block([ResolveErrorCatcher, Process(req, handler)], response, o.process)
    else Block([ResolveErrorCatcher, Process(req, handler)] + EmitEvents(o.errorResponse, o.emitError),
               Some(o.errorResponse), FaultFailure(o.emitError))
  }

  /** The try block followed by the catch block when the try block failed. */
  function Settle(req: ServerRequest, o: DispatchOracle): Block {
    var tried := TryBlock(req, o);
    match tried.pending
    case None => tried
    case Some(caught) =>
      var caughtBlock := CatchBlock(req, caught, o, tried.response);
      Block(tried.events + caughtBlock.events, caughtBlock.response, caughtBlock.pending)
  }

  /** The finally block: `afterEmit($psrResponse ?? null)`, then `shutdown()`. A
      failure raised here replaces the pending one; a failing `afterEmit` skips
      `shutdown`. */
  function Finally(b: Block, o: DispatchOracle): (r: DispatchResult)
    ensures |r.events| == |b.events| + (if o.afterEmit.Some? then 1 else 2)
    ensures b.events <= r.events && r.events[|b.events|] == AfterEmit(b.response)
    ensures o.afterEmit.None? ==> r.events[|r.events| - 1] == Shutdown
    ensures o.afterEmit.Some? ==> r.outcome == Propagated(o.afterEmit.value)
    ensures o.afterEmit.None? && o.shutdown.Some? ==> r.outcome == Propagated(o.shutdown.value)
    ensures o.afterEmit.None? && o.shutdown.None? && b.pending.Some? ==> r.outcome == Propagated(b.pending.value)
    ensures r.outcome.Completed? <==> o.afterEmit.None? && o.shutdown.None? && b.pending.None?
  {
    var t := b.events + [AfterEmit(b.response)];
    if o.afterEmit.Some? then DispatchResult(t, Propagated(o.afterEmit.value))
    else
      var t := t + [Shutdown];
      if o.shutdown.Some? then DispatchResult(t, Propagated(o.shutdown.value))
      else match b.pending
        case Some(p) => DispatchResult(t, Propagated(p))
        case None => DispatchResult(t, Completed)
  }

  /** `handleRequest`: resolve the application and convert the request, both
      outside the try, then try/catch/finally. A failure in either of the first
      two steps propagates at once: nothing is emitted and no teardown runs. */
  function HandleRequest(n: NativeRequest, o: DispatchOracle): (r: DispatchResult)
    ensures |r.events| >= 1 && r.events[0] == ResolveApplication
    ensures r.outcome.Completed? ==>
              o.resolveApplication.None? && o.convert.None? && o.afterEmit.None? && o.shutdown.None?
    ensures r.events[|r.events| - 1] == Shutdown <==>
              o.resolveApplication.None? && o.convert.None? && o.afterEmit.None?
  {
    if o.resolveApplication.Some? then DispatchResult([ResolveApplication], Propagated(o.resolveApplication.value))
    else if o.convert.Some? then DispatchResult([ResolveApplication, ConvertRequest], Propagated(o.convert.value))
    else
      var r := Run(Convert(n), o);
      DispatchResult([ResolveApplication, ConvertRequest] + r.events, r.outcome)
  }

  /** The try/catch/finally part of `handleRequest` for the converted request `req`. */
  function Run(req: ServerRequest, o: DispatchOracle): DispatchResult {
    Finally(Settle(req, o), o)
  }

  // ------------------------------------------------------------ block facts

  lemma {:induction false} NativesCount(calls: seq<NativeCall>)
    ensures Count(Natives(calls), IsNativeEnd) == Count(calls, IsEnd)
    ensures Count(Natives(calls), IsNativeStatus) == Count(calls, IsStatus)
  {
    if calls != [] {
      assert Natives(calls)[1..] == Natives(calls[1..]);
      NativesCount(calls[1..]);
    }
  }

  /** The calls a failing emit completed: never the `end`, and a status call
      unless it failed on the very first call. */
  lemma EmitPrefixCounts(r: Response, k: nat)
    requires k < |Emit(r)|
    ensures Count(Emit(r)[..k], IsEnd) == 0
    ensures Count(Emit(r)[..k], IsStatus) == (if k >= 1 then 1 else 0)
  {
    var all := Emit(r);
    EmitShape(r);
    var p := all[..k];
    assert forall i :: 0 <= i < |p| ==> p[i] == all[i];
    assert forall i :: 0 <= i < |p| ==> !p[i].End?;
    CountZero(p, IsEnd);
    if k >= 1 {
      assert p == p[..1] + p[1..];
      assert forall i :: 0 <= i < |p[1..]| ==> p[1..][i] == all[i + 1];
      CountZero(p[1..], IsStatus);
      CountAppend(p[..1], p[1..], IsStatus);
    }
  }

  /** One `emit` call: one `EmitBegin`, no dispatcher hooks, an `end` only when it
      completes, a status call unless it failed on the very first call. */
  lemma EmitEventsCounts(r: Response, fault: Option<EmitFault>)
    ensures var t := EmitEvents(r, fault);
      && Count(t, IsEmitBegin) == 1
      && Count(t, IsProcess) == 0 && Count(t, IsAfterEmit) == 0 && Count(t, IsShutdown) == 0
      && Count(t, IsNativeEnd) == (if fault.None? then 1 else 0)
      && Count(t, IsNativeStatus) == (if fault.None? || fault.value.completedCalls >= 1 then 1 else 0)
  {
    EmitEventsHookCounts(r, fault);
    EmitEventsNativeCounts(r, fault);
  }

  lemma EmitEventsHookCounts(r: Response, fault: Option<EmitFault>)
    ensures var t := EmitEvents(r, fault);
      && Count(t, IsEmitBegin) == 1
      && Count(t, IsProcess) == 0 && Count(t, IsAfterEmit) == 0 && Count(t, IsShutdown) == 0
  {
    var natives := Natives(EmitCalls(r, fault));
    var head: seq<Event> := [EmitBegin(r)];
    assert EmitEvents(r, fault) == head + natives;
    assert Count(head + natives, IsEmitBegin) == 1 by {
      CountZero(natives, IsEmitBegin);
      CountAppend(head, natives, IsEmitBegin);
    }
    assert Count(head + natives, IsProcess) == 0 by {
      CountZero(natives, IsProcess);
      CountAppend(head, natives, IsProcess);
    }
    assert Count(head + natives, IsAfterEmit) == 0 by {
      CountZero(natives, IsAfterEmit);
      CountAppend(head, natives, IsAfterEmit);
    }
    assert Count(head + natives, IsShutdown) == 0 by {
      CountZero(natives, IsShutdown);
      CountAppend(head, natives, IsShutdown);
    }
  }

  lemma EmitEventsNativeCounts(r: Response, fault: Option<EmitFault>)
    ensures var t := EmitEvents(r, fault);
      && Count(t, IsNativeEnd) == (if fault.None? then 1 else 0)
      && Count(t, IsNativeStatus) == (if fault.None? || fault.value.completedCalls >= 1 then 1 else 0)
  {
    var calls := EmitCalls(r, fault);
    var natives := Natives(calls);
    var head: seq<Event> := [EmitBegin(r)];
    assert EmitEvents(r, fault) == head + natives;
    assert Count(head + natives, IsNativeEnd) == Count(calls, IsEnd)
        && Count(head + natives, IsNativeStatus) == Count(calls, IsStatus) by {
      CountAppend(head, natives, IsNativeEnd);
      CountAppend(head, natives, IsNativeStatus);
      NativesCount(calls);
    }
    match fault
    case None => EmitShape(r);
    case Some(f) => EmitPrefixCounts(r, |calls|);
  }

  /** Facts about the try block followed, when needed, by the catch block. */
  lemma SettleCounts(req: ServerRequest, o: DispatchOracle)
    ensures var b := Settle(req, o);
      && Count(b.events, IsAfterEmit) == 0
      && Count(b.events, IsShutdown) == 0
      && Count(b.events, IsNativeEnd) == (if b.pending.None? then 1 else 0)
  {
    var tried := TryBlock(req, o);
    TryCounts(req, o);
    if tried.pending.Some? {
      var c := CatchBlock(req, tried.pending.value, o, tried.response);
      CatchCounts(req, tried.pending.value, o, tried.response);
      CountAppend(tried.events, c.events, IsAfterEmit);
      CountAppend(tried.events, c.events, IsShutdown);
      CountAppend(tried.events, c.events, IsNativeEnd);
    }
  }

  lemma TryCounts(req: ServerRequest, o: DispatchOracle)
    ensures var b := TryBlock(req, o);
      && Count(b.events, IsAfterEmit) == 0 && Count(b.events, IsShutdown) == 0
      && Count(b.events, IsProcess) == 0
      && Count(b.events, IsNativeEnd) == (if b.pending.None? then 1 else 0)
      && Count(b.events, IsEmitBegin) == (if o.start.None? && o.handle.None? then 1 else 0)
      && Count(b.events, IsNativeStatus) ==
           (if o.start.None? && o.handle.None? && (o.emitApp.None? || o.emitApp.value.completedCalls >= 1) then 1 else 0)
  {
    if o.start.None? && o.handle.None? {
      var e := EmitEvents(o.appResponse, o.emitApp);
      EmitEventsCounts(o.appResponse, o.emitApp);
      CountPrepend2(Start, Handle(req), e, IsAfterEmit);
      CountPrepend2(Start, Handle(req), e, IsShutdown);
      CountPrepend2(Start, Handle(req), e, IsProcess);
      CountPrepend2(Start, Handle(req), e, IsNativeEnd);
      CountPrepend2(Start, Handle(req), e, IsEmitBegin);
      CountPrepend2(Start, Handle(req), e, IsNativeStatus);
    }
  }

  lemma CatchCounts(req: ServerRequest, caught: Throwable, o: DispatchOracle, response: Option<Response>)
    ensures var b := CatchBlock(req, caught, o, response);
      && Count(b.events, IsAfterEmit) == 0 && Count(b.events, IsShutdown) == 0
      && Count(b.events, IsProcess) == (if o.resolveErrorCatcher.None? then 1 else 0)
      && Count(b.events, IsNativeEnd) == (if b.pending.None? then 1 else 0)
      && Count(b.events, IsEmitBegin) == (if o.resolveErrorCatcher.None? && o.process.None? then 1 else 0)
      && Count(b.events, IsNativeStatus) ==
           (if o.resolveErrorCatcher.None? && o.process.None?
               && (o.emitError.None? || o.emitError.value.completedCalls >= 1) then 1 else 0)
  {
    if o.resolveErrorCatcher.None? && o.process.None? {
      var e := EmitEvents(o.errorResponse, o.emitError);
      EmitEventsCounts(o.errorResponse, o.emitError);
      CountPrepend2(ResolveErrorCatcher, Process(req, ThrowableHandler(caught)), e, IsAfterEmit);
      CountPrepend2(ResolveErrorCatcher, Process(req, ThrowableHandler(caught)), e, IsShutdown);
      CountPrepend2(ResolveErrorCatcher, Process(req, ThrowableHandler(caught)), e, IsProcess);
      CountPrepend2(ResolveErrorCatcher, Process(req, ThrowableHandler(caught)), e, IsNativeEnd);
      CountPrepend2(ResolveErrorCatcher, Process(req, ThrowableHandler(caught)), e, IsEmitBegin);
      CountPrepend2(ResolveErrorCatcher, Process(req, ThrowableHandler(caught)), e, IsNativeStatus);
    }
  }

  /** The dispatch trace of `Run` is the settled block followed by the finally block. */
  lemma RunFrame(req: ServerRequest, o: DispatchOracle)
    ensures Run(req, o).events == Settle(req, o).events + [AfterEmit(Settle(req, o).response)]
                                  + (if o.afterEmit.None? then [Shutdown] else [])
    ensures Run(req, o).outcome
         == if o.afterEmit.Some? then Propagated(o.afterEmit.value)
            else if o.shutdown.Some? then Propagated(o.shutdown.value)
            else if Settle(req, o).pending.Some? then Propagated(Settle(req, o).pending.value)
            else Completed
  {
  }

  /** The settled block when start, handle and emit succeed. */
  lemma SettleSuccess(req: ServerRequest, o: DispatchOracle)
    requires o.start.None? && o.handle.None? && o.emitApp.None?
    ensures Settle(req, o) == Block([Start, Handle(req)] + EmitEvents(o.appResponse, None), Some(o.appResponse), None)
  {
  }

  /** The settled block when start and handle succeed and the first emit fails. */
  lemma SettleEmitFailure(req: ServerRequest, o: DispatchOracle)
    requires o.start.None? && o.handle.None? && o.emitApp.Some?
    ensures var tried := [Start, Handle(req)] + EmitEvents(o.appResponse, o.emitApp);
      var c := CatchBlock(req, o.emitApp.value.failure, o, Some(o.appResponse));
      && TryBlock(req, o) == Block(tried, Some(o.appResponse), Some(o.emitApp.value.failure))
      && Settle(req, o) == Block(tried + c.events, c.response, c.pending)
  {
  }

  /** The settled block when handle fails. */
  lemma SettleHandleFailure(req: ServerRequest, o: DispatchOracle)
    requires o.start.None? && o.handle.Some?
    ensures var c := CatchBlock(req, o.handle.value, o, None);
      && TryBlock(req, o) == Block([Start, Handle(req)], None, o.handle)
      && Settle(req, o) == Block([Start, Handle(req)] + c.events, c.response, c.pending)
  {
  }

  lemma RunCount(req: ServerRequest, o: DispatchOracle, p: Event -> bool)
    ensures Count(Run(req, o).events, p)
         == Count(Settle(req, o).events, p)
            + Count([AfterEmit(Settle(req, o).response)] + (if o.afterEmit.None? then [Shutdown] else []), p)
  {
    var b := Settle(req, o);
    var tail: seq<Event> := [AfterEmit(b.response)] + (if o.afterEmit.None? then [Shutdown] else []);
    assert Run(req, o).events == b.events + tail by {
      RunFrame(req, o);
    }
    CountAppend(b.events, tail, p);
  }

  /** When the try block fails, the settled block is the try block followed by
      the catch block. */
  lemma SettleCaught(req: ServerRequest, o: DispatchOracle)
    requires TryBlock(req, o).pending.Some?
    ensures var tried := TryBlock(req, o);
      var c := CatchBlock(req, tried.pending.value, o, tried.response);
      Settle(req, o) == Block(tried.events + c.events, c.response, c.pending)
  {
  }

  lemma SettleCount(req: ServerRequest, o: DispatchOracle, p: Event -> bool)
    requires TryBlock(req, o).pending.Some?
    ensures var tried := TryBlock(req, o);
      Count(Settle(req, o).events, p)
        == Count(tried.events, p) + Count(CatchBlock(req, tried.pending.value, o, tried.response).events, p)
  {
    var tried := TryBlock(req, o);
    var c := CatchBlock(req, tried.pending.value, o, tried.response);
    assert Settle(req, o).events == tried.events + c.events by {
      SettleCaught(req, o);
    }
    CountAppend(tried.events, c.events, p);
  }

  /** Once the application is resolved, `handleRequest` is `Run` on the converted
      request, after the resolution event. */
  lemma HandleRequestFrame(n: NativeRequest, o: DispatchOracle)
    requires o.resolveApplication.None? && o.convert.None?
    ensures HandleRequest(n, o).events == [ResolveApplication, ConvertRequest] + Run(Convert(n), o).events
    ensures HandleRequest(n, o).outcome == Run(Convert(n), o).outcome
  {
  }

  lemma HandleRequestCount(n: NativeRequest, o: DispatchOracle, p: Event -> bool)
    requires o.resolveApplication.None? && o.convert.None?
    ensures Count(HandleRequest(n, o).events, p)
         == Count([ResolveApplication, ConvertRequest], p) + Count(Run(Convert(n), o).events, p)
  {
    assert HandleRequest(n, o).events == [ResolveApplication, ConvertRequest] + Run(Convert(n), o).events by {
      HandleRequestFrame(n, o);
    }
    CountAppend([ResolveApplication, ConvertRequest], Run(Convert(n), o).events, p);
  }

  // ------------------------------------------------------------- properties

  /** Teardown always runs once the application is resolved and the request
      converted: whatever fails in start, handle, emit, the error catcher or the
      second emit, `afterEmit` and `shutdown` each happen exactly once and are the
      last two events. */
  lemma TeardownRunsOnce(n: NativeRequest, o: DispatchOracle)
    requires o.resolveApplication.None? && o.convert.None? && o.afterEmit.None?
    ensures var t := HandleRequest(n, o).events;
      && |t| >= 3
      && t[|t| - 2].AfterEmit?
      && t[|t| - 1] == Shutdown
      && Count(t, IsAfterEmit) == 1
      && Count(t, IsShutdown) == 1
  {
    var req := Convert(n);
    HandleRequestFrame(n, o);
    RunFrame(req, o);
    SettleCounts(req, o);
    HandleRequestCount(n, o, IsAfterEmit);
    HandleRequestCount(n, o, IsShutdown);
    RunCount(req, o, IsAfterEmit);
    RunCount(req, o, IsShutdown);
  }

  /** The limits of that guarantee: failures resolving the application or
      converting the request happen before the try, so nothing is emitted and no
      teardown runs; a failing `afterEmit` skips `shutdown` and its failure is the
      one that propagates. */
  lemma TeardownLimits(n: NativeRequest, o: DispatchOracle)
    ensures o.resolveApplication.Some? ==>
              HandleRequest(n, o) == DispatchResult([ResolveApplication], Propagated(o.resolveApplication.value))
    ensures o.resolveApplication.None? && o.convert.Some? ==>
              HandleRequest(n, o) == DispatchResult([ResolveApplication, ConvertRequest], Propagated(o.convert.value))
    ensures o.resolveApplication.None? && o.convert.None? && o.afterEmit.Some? ==>
              (&& HandleRequest(n, o).events[|HandleRequest(n, o).events| - 1].AfterEmit?
               && Count(HandleRequest(n, o).events, IsShutdown) == 0
               && HandleRequest(n, o).outcome == Propagated(o.afterEmit.value))
  {
    if o.resolveApplication.None? && o.convert.None? && o.afterEmit.Some? {
      var req := Convert(n);
      HandleRequestFrame(n, o);
      RunFrame(req, o);
      SettleCounts(req, o);
      HandleRequestCount(n, o, IsShutdown);
      RunCount(req, o, IsShutdown);
    }
  }

  /** When start, handle and emit succeed: the request is handled, the
      application's response is emitted once and completely, the error catcher is
      never involved, and `afterEmit` receives that same response. */
  lemma SuccessPath(req: ServerRequest, o: DispatchOracle)
    requires o.start.None? && o.handle.None? && o.emitApp.None?
    requires o.afterEmit.None? && o.shutdown.None?
    ensures var t := Run(req, o).events;
      && Run(req, o).outcome == Completed
      && t[1] == Handle(req)
      && t[2] == EmitBegin(o.appResponse)
      && Count(t, IsEmitBegin) == 1
      && Count(t, IsProcess) == 0
      && Count(t, IsNativeEnd) == 1
      && t[|t| - 2] == AfterEmit(Some(o.appResponse))
  {
    var b := Settle(req, o);
    var t := Run(req, o).events;
    var tail: seq<Event> := [AfterEmit(b.response), Shutdown];
    assert b == TryBlock(req, o)
        && b == Block([Start, Handle(req)] + EmitEvents(o.appResponse, None), Some(o.appResponse), None) by {
      SettleSuccess(req, o);
    }
    assert t == b.events + tail && Run(req, o).outcome == Completed by {
      RunFrame(req, o);
    }
    assert t[1] == Handle(req) && t[2] == EmitBegin(o.appResponse);
    assert t[|t| - 2] == AfterEmit(Some(o.appResponse));
    assert Count(b.events, IsEmitBegin) == 1 && Count(b.events, IsProcess) == 0
        && Count(b.events, IsNativeEnd) == 1 by {
      TryCounts(req, o);
    }
    assert Count(t, IsEmitBegin) == 1 by {
      RunCount(req, o, IsEmitBegin);
    }
    assert Count(t, IsProcess) == 0 by {
      RunCount(req, o, IsProcess);
    }
    assert Count(t, IsNativeEnd) == 1 by {
      RunCount(req, o, IsNativeEnd);
    }
  }

  /** When handle fails with `f`: the error catcher processes the same request
      with a throwable handler wrapping `f`, and the response it returns is the
      one emitted and passed to `afterEmit`. When that emit and the teardown
      succeed, the failure does not propagate. */
  lemma HandleFailureRecovered(req: ServerRequest, o: DispatchOracle)
    requires o.start.None? && o.handle.Some?
    requires o.resolveErrorCatcher.None? && o.process.None? && o.afterEmit.None?
    ensures var t := Run(req, o).events;
      && t[1] == Handle(req)
      && t[3] == Process(req, ThrowableHandler(o.handle.value))
      && t[4] == EmitBegin(o.errorResponse)
      && Count(t, IsProcess) == 1
      && Count(t, IsEmitBegin) == 1
      && t[|t| - 2] == AfterEmit(Some(o.errorResponse))
      && (o.emitError.None? && o.shutdown.None? ==> Run(req, o).outcome == Completed)
  {
    HandleFailureTrace(req, o);
    HandleFailureCounts(req, o);
  }

  lemma HandleFailureTrace(req: ServerRequest, o: DispatchOracle)
    requires o.start.None? && o.handle.Some?
    requires o.resolveErrorCatcher.None? && o.process.None? && o.afterEmit.None?
    ensures var t := Run(req, o).events;
      && |t| >= 5
      && t[1] == Handle(req)
      && t[3] == Process(req, ThrowableHandler(o.handle.value))
      && t[4] == EmitBegin(o.errorResponse)
      && t[|t| - 2] == AfterEmit(Some(o.errorResponse))
      && (o.emitError.None? && o.shutdown.None? ==> Run(req, o).outcome == Completed)
  {
    var f := o.handle.value;
    var c := CatchBlock(req, f, o, None);
    var b := Settle(req, o);
    var t := Run(req, o).events;
    assert b == Block([Start, Handle(req)] + c.events, c.response, c.pending) by {
      SettleHandleFailure(req, o);
    }
    assert c.events == [ResolveErrorCatcher, Process(req, ThrowableHandler(f))] + EmitEvents(o.errorResponse, o.emitError)
        && c.response == Some(o.errorResponse) && c.pending == FaultFailure(o.emitError);
    assert t == b.events + [AfterEmit(b.response), Shutdown]
        && (o.emitError.None? && o.shutdown.None? ==> Run(req, o).outcome == Completed) by {
      RunFrame(req, o);
    }
  }

  lemma HandleFailureCounts(req: ServerRequest, o: DispatchOracle)
    requires o.start.None? && o.handle.Some?
    requires o.resolveErrorCatcher.None? && o.process.None? && o.afterEmit.None?
    ensures Count(Run(req, o).events, IsProcess) == 1
    ensures Count(Run(req, o).events, IsEmitBegin) == 1
  {
    SettleHandleFailureCounts(req, o);
    RunCount(req, o, IsProcess);
    RunCount(req, o, IsEmitBegin);
  }

  lemma SettleHandleFailureCounts(req: ServerRequest, o: DispatchOracle)
    requires o.start.None? && o.handle.Some?
    requires o.resolveErrorCatcher.None? && o.process.None?
    ensures Count(Settle(req, o).events, IsProcess) == 1
    ensures Count(Settle(req, o).events, IsEmitBegin) == 1
  {
    assert TryBlock(req, o) == Block([Start, Handle(req)], None, o.handle) by {
      SettleHandleFailure(req, o);
    }
    TryCounts(req, o);
    CatchCounts(req, o.handle.value, o, None);
    SettleCount(req, o, IsProcess);
    SettleCount(req, o, IsEmitBegin);
  }

  /** When start or handle fails and the error catcher then fails too (resolving
      it or in `process`): nothing is emitted, `afterEmit` receives `null`, and
      the catcher's failure propagates after the teardown. */
  lemma ErrorCatcherFailure(req: ServerRequest, o: DispatchOracle)
    requires o.start.Some? || o.handle.Some?
    requires o.resolveErrorCatcher.Some? || o.process.Some?
    requires o.afterEmit.None? && o.shutdown.None?
    ensures var t := Run(req, o).events;
      && Count(t, IsEmitBegin) == 0
      && Count(t, IsNativeEnd) == 0
      && t[|t| - 2] == AfterEmit(None)
      && Run(req, o).outcome
         == Propagated(if o.resolveErrorCatcher.Some? then o.resolveErrorCatcher.value else o.process.value)
  {
    var tried := TryBlock(req, o);
    assert tried.response == None && tried.pending.Some?;
    SettleCaught(req, o);
    RunFrame(req, o);
    TryCounts(req, o);
    CatchCounts(req, tried.pending.value, o, None);
    SettleCount(req, o, IsEmitBegin);
    SettleCount(req, o, IsNativeEnd);
    RunCount(req, o, IsEmitBegin);
    RunCount(req, o, IsNativeEnd);
  }

  lemma EmitFailureShape(req: ServerRequest, o: DispatchOracle)
    requires o.start.None? && o.handle.None? && o.emitApp.Some?
    requires o.resolveErrorCatcher.None? && o.process.None? && o.afterEmit.None?
    ensures var t := Run(req, o).events;
      && t[2] == EmitBegin(o.appResponse)
      && Process(req, ThrowableHandler(o.emitApp.value.failure)) in t
      && EmitBegin(o.errorResponse) in t
      && t[|t| - 2] == AfterEmit(Some(o.errorResponse))
  {
    var f := o.emitApp.value.failure;
    var tried := [Start, Handle(req)] + EmitEvents(o.appResponse, o.emitApp);
    var c := CatchBlock(req, f, o, Some(o.appResponse));
    SettleEmitFailure(req, o);
    RunFrame(req, o);
    assert Run(req, o).events[|tried| + 1] == c.events[1] == Process(req, ThrowableHandler(f));
    assert Run(req, o).events[|tried| + 2] == c.events[2] == EmitBegin(o.errorResponse);
  }

  lemma EmitFailureEmitCount(req: ServerRequest, o: DispatchOracle)
    requires o.start.None? && o.handle.None? && o.emitApp.Some?
    requires o.resolveErrorCatcher.None? && o.process.None?
    ensures Count(Run(req, o).events, IsEmitBegin) == 2
  {
    SettleEmitFailure(req, o);
    TryCounts(req, o);
    CatchCounts(req, o.emitApp.value.failure, o, Some(o.appResponse));
    SettleCount(req, o, IsEmitBegin);
    RunCount(req, o, IsEmitBegin);
  }

  lemma EmitFailureStatusCount(req: ServerRequest, o: DispatchOracle)
    requires o.start.None? && o.handle.None? && o.emitApp.Some?
    requires o.resolveErrorCatcher.None? && o.process.None?
    requires o.emitApp.value.completedCalls >= 1
    requires o.emitError.None? || o.emitError.value.completedCalls >= 1
    ensures Count(Run(req, o).events, IsNativeStatus) == 2
  {
    SettleEmitFailureStatus(req, o);
    RunCount(req, o, IsNativeStatus);
  }

  lemma SettleEmitFailureStatus(req: ServerRequest, o: DispatchOracle)
    requires o.start.None? && o.handle.None? && o.emitApp.Some?
    requires o.resolveErrorCatcher.None? && o.process.None?
    requires o.emitApp.value.completedCalls >= 1
    requires o.emitError.None? || o.emitError.value.completedCalls >= 1
    ensures Count(Settle(req, o).events, IsNativeStatus) == 2
  {
    var tried := TryBlock(req, o);
    var c := CatchBlock(req, o.emitApp.value.failure, o, Some(o.appResponse));
    assert tried.pending == Some(o.emitApp.value.failure) && tried.response == Some(o.appResponse) by {
      SettleEmitFailure(req, o);
    }
    assert Count(tried.events, IsNativeStatus) == 1 by {
      TryCounts(req, o);
    }
    assert Count(c.events, IsNativeStatus) == 1 by {
      CatchCounts(req, o.emitApp.value.failure, o, Some(o.appResponse));
    }
    SettleCount(req, o, IsNativeStatus);
  }

  /** When the first emit fails midway with `f`: the error catcher processes the
      request with a handler wrapping `f` and a second emit writes its response on
      the same native response. If the first emit had already made a native call,
      the native response receives a second status call after it. */
  lemma EmitFailureEmitsAgain(req: ServerRequest, o: DispatchOracle)
    requires o.start.None? && o.handle.None? && o.emitApp.Some?
    requires o.resolveErrorCatcher.None? && o.process.None? && o.afterEmit.None?
    ensures var t := Run(req, o).events;
      && t[2] == EmitBegin(o.appResponse)
      && Process(req, ThrowableHandler(o.emitApp.value.failure)) in t
      && EmitBegin(o.errorResponse) in t
      && Count(t, IsEmitBegin) == 2
      && t[|t| - 2] == AfterEmit(Some(o.errorResponse))
      && (o.emitApp.value.completedCalls >= 1 && (o.emitError.None? || o.emitError.value.completedCalls >= 1)
          ==> Count(t, IsNativeStatus) == 2)
  {
    EmitFailureShape(req, o);
    EmitFailureEmitCount(req, o);
    if o.emitApp.value.completedCalls >= 1 && (o.emitError.None? || o.emitError.value.completedCalls >= 1) {
      EmitFailureStatusCount(req, o);
    }
  }

  /** When the first emit fails and `process` then fails: `$psrResponse` still
      holds the application's response, so `afterEmit` receives it (not `null`)
      although it was never completely sent, and `process`'s failure propagates. */
  lemma ProcessFailureAfterEmitFailure(req: ServerRequest, o: DispatchOracle)
    requires o.start.None? && o.handle.None? && o.emitApp.Some?
    requires o.resolveErrorCatcher.None? && o.process.Some?
    requires o.afterEmit.None? && o.shutdown.None?
    ensures var t := Run(req, o).events;
      && t[|t| - 2] == AfterEmit(Some(o.appResponse))
      && Count(t, IsNativeEnd) == 0
      && Run(req, o).outcome == Propagated(o.process.value)
  {
    SettleEmitFailure(req, o);
    RunFrame(req, o);
    TryCounts(req, o);
    CatchCounts(req, o.emitApp.value.failure, o, Some(o.appResponse));
    SettleCount(req, o, IsNativeEnd);
    RunCount(req, o, IsNativeEnd);
  }

  /** Whatever fails, the native response is ended at most once, and a request
      whose dispatch completes normally was ended exactly once. */
  lemma AtMostOneEnd(n: NativeRequest, o: DispatchOracle)
    ensures Count(HandleRequest(n, o).events, IsNativeEnd) <= 1
    ensures HandleRequest(n, o).outcome.Completed? ==> Count(HandleRequest(n, o).events, IsNativeEnd) == 1
  {
    if o.resolveApplication.None? && o.convert.None? {
      var req := Convert(n);
      RunEnds(req, o);
      HandleRequestFrame(n, o);
      HandleRequestCount(n, o, IsNativeEnd);
    }
  }

  /** The try/catch/finally part ends the native response once when the settled
      block raised nothing, and never otherwise. */
  lemma RunEnds(req: ServerRequest, o: DispatchOracle)
    ensures Count(Run(req, o).events, IsNativeEnd) == (if Settle(req, o).pending.None? then 1 else 0)
    ensures Run(req, o).outcome.Completed? ==> Settle(req, o).pending.None?
  {
    SettleCounts(req, o);
    RunCount(req, o, IsNativeEnd);
  }
}
