/** `Server::bootstrap` and `Server::registerErrorHandler`: the once-per-worker
    swap from the fallback error handler to the one configured in the container,
    as a trace of events on the process-wide handler slot. */
module WorkerBootstrap {
  import opened Wrappers
  import opened Traces
  import opened ServerConfig

  /** What the bootstrap does, in order. */
  datatype BootEvent =
    | Register(handler: ErrorHandler)
    | Unregister(handler: ErrorHandler)
    | Debug(handler: ErrorHandler)
    | ResolveErrorHandler
    | RunBootstrap
    | CheckEvents

  predicate IsRegister(e: BootEvent) { e.Register? }
  predicate IsUnregister(e: BootEvent) { e.Unregister? }
  predicate IsDebug(e: BootEvent) { e.Debug? }

  /** Which collaborator calls fail during the bootstrap (`None`: it returns), and
      the handler the container hands out. Resolution covers both obtaining the
      container and asking it for the handler. */
  datatype BootOracle = BootOracle(
    resolve: Option<Throwable>,
    resolved: ErrorHandler,
    runBootstrap: Option<Throwable>,
    checkEvents: Option<Throwable>)

  datatype BootResult = BootResult(events: seq<BootEvent>, outcome: Outcome)

  /** `registerErrorHandler($registered, $unregistered)`. */
  function RegisterErrorHandler(debug: bool, registered: ErrorHandler, unregistered: Option<ErrorHandler>)
    : (t: seq<BootEvent>)
    ensures |t| >= 1 && t[|t| - 1] == Register(registered)
    ensures Count(t, IsRegister) == 1
    ensures unregistered.Some? ==> t[0] == Unregister(unregistered.value) && Count(t, IsUnregister) == 1
    ensures unregistered.None? ==> Count(t, IsUnregister) == 0
    ensures Count(t, IsDebug) == (if debug then 1 else 0)
    ensures debug ==> |t| >= 2 && t[|t| - 2] == Debug(registered)
    ensures |t| == (if unregistered.Some? then 1 else 0) + (if debug then 1 else 0) + 1
  {
    var un: seq<BootEvent> := match unregistered case Some(u) => [Unregister(u)] case None => [];
    var dbg: seq<BootEvent> := if debug then [Debug(registered)] else [];
    var reg: seq<BootEvent> := [Register(registered)];
    CountAppend3(un, dbg, reg, IsRegister);
    CountAppend3(un, dbg, reg, IsUnregister);
    CountAppend3(un, dbg, reg, IsDebug);
    un + dbg + reg
  }

  /** `bootstrap()`: register the fallback handler, resolve the real one, swap them,
      then run the bootstrap hooks and the events check. A failure propagates
      and stops the sequence where it happened. */
  function Bootstrap(s: Server, o: BootOracle): (r: BootResult)
    ensures r.outcome.Completed? <==> o.resolve.None? && o.runBootstrap.None? && o.checkEvents.None?
    ensures |r.events| >= 2
    ensures o.resolve.Some? ==>
              r.outcome == Propagated(o.resolve.value) && r.events[|r.events| - 1] == ResolveErrorHandler
    ensures o.resolve.None? && o.runBootstrap.Some? ==>
              r.outcome == Propagated(o.runBootstrap.value) && r.events[|r.events| - 1] == RunBootstrap
    ensures o.resolve.None? && o.runBootstrap.None? ==> r.events[|r.events| - 1] == CheckEvents
    ensures o.resolve.None? && o.runBootstrap.None? && o.checkEvents.Some? ==>
              r.outcome == Propagated(o.checkEvents.value)
  {
    var temp := CreateTemporaryErrorHandler(s);
    var t := RegisterErrorHandler(s.debug, temp, None) + [ResolveErrorHandler];
    if o.resolve.Some? then BootResult(t, Propagated(o.resolve.value))
    else
      var t := t + RegisterErrorHandler(s.debug, o.resolved, Some(temp)) + [RunBootstrap];
      if o.runBootstrap.Some? then BootResult(t, Propagated(o.runBootstrap.value))
      else
        var t := t + [CheckEvents];
        if o.checkEvents.Some? then BootResult(t, Propagated(o.checkEvents.value))
        else BootResult(t, Completed)
  }

  // --------------------------------------------------- the handler slot

  /** The handlers registered and not yet unregistered after `t`, from `start`. */
  function Active(start: set<ErrorHandler>, t: seq<BootEvent>): set<ErrorHandler>
    decreases |t|
  {
    if t == [] then start
    else
      var before := Active(start, t[..|t| - 1]);
      match t[|t| - 1]
      case Register(h) => before + {h}
      case Unregister(h) => before - {h}
      case _ => before
  }

  /** At no point of `t` (started from `start`) are two handlers active at once. */
  ghost predicate AtMostOneActive(start: set<ErrorHandler>, t: seq<BootEvent>) {
    forall k :: 0 <= k <= |t| ==> |Active(start, t[..k])| <= 1
  }

  lemma {:induction false} ActiveAppend(start: set<ErrorHandler>, a: seq<BootEvent>, b: seq<BootEvent>)
    ensures Active(start, a + b) == Active(Active(start, a), b)
    decreases |b|
  {
    if b == [] {
      assert a + b == a;
    } else {
      assert (a + b)[..|a + b| - 1] == a + b[..|b| - 1];
      ActiveAppend(start, a, b[..|b| - 1]);
    }
  }

  lemma AtMostOneActiveAppend(start: set<ErrorHandler>, a: seq<BootEvent>, b: seq<BootEvent>)
    requires AtMostOneActive(start, a)
    requires AtMostOneActive(Active(start, a), b)
    ensures AtMostOneActive(start, a + b)
  {
    forall k | 0 <= k <= |a + b|
      ensures |Active(start, (a + b)[..k])| <= 1
    {
      if k <= |a| {
        assert (a + b)[..k] == a[..k];
      } else {
        assert (a + b)[..k] == a + b[..k - |a|];
        ActiveAppend(start, a, b[..k - |a|]);
      }
    }
  }

  /** Events other than (un)registration leave the slot alone. */
  lemma QuietEvent(start: set<ErrorHandler>, e: BootEvent)
    requires !e.Register? && !e.Unregister?
    requires |start| <= 1
    ensures Active(start, [e]) == start
    ensures AtMostOneActive(start, [e])
  {
    assert [e][..0] == [] && [e][..1] == [e];
  }

  /** `registerErrorHandler` unregisters before it registers: from a slot holding
      at most the handler it unregisters (nothing when it unregisters none), the
      slot never holds two handlers and ends holding only the registered one. */
  lemma RegisterSwapsSlot(start: set<ErrorHandler>, debug: bool, h: ErrorHandler, u: Option<ErrorHandler>)
    requires u.None? ==> start == {}
    requires u.Some? ==> start <= {u.value}
    ensures AtMostOneActive(start, RegisterErrorHandler(debug, h, u))
    ensures Active(start, RegisterErrorHandler(debug, h, u)) == {h}
  {
    var un: seq<BootEvent> := match u case Some(x) => [Unregister(x)] case None => [];
    var dbg: seq<BootEvent> := if debug then [Debug(h)] else [];
    assert Active(start, un) == {} by {
      if u.Some? {
        assert un[..0] == [];
        assert start - {u.value} == {};
      }
    }
    assert AtMostOneActive(start, un) by {
      if u.Some? {
        assert un[..0] == [] && un[..1] == un;
        if start != {} {
          assert start == {u.value};
        }
      }
    }
    assert Active({}, dbg) == {} && AtMostOneActive({}, dbg) by {
      if debug {
        QuietEvent({}, Debug(h));
      }
    }
    var reg: seq<BootEvent> := [Register(h)];
    assert reg[..0] == [] && reg[..1] == reg;
    assert Active({}, reg) == {h};
    assert AtMostOneActive({}, reg);
    assert Active(start, un + dbg) == {} && AtMostOneActive(start, un + dbg) by {
      AtMostOneActiveAppend(start, un, dbg);
      ActiveAppend(start, un, dbg);
    }
    AtMostOneActiveAppend(start, un + dbg, reg);
    ActiveAppend(start, un + dbg, reg);
  }

  /** The bootstrap trace up to and including handler resolution. */
  function ResolvedPrefix(s: Server): seq<BootEvent> {
    RegisterErrorHandler(s.debug, CreateTemporaryErrorHandler(s), None) + [ResolveErrorHandler]
  }

  /** The bootstrap trace up to and including the bootstrap hooks. */
  function HooksPrefix(s: Server, o: BootOracle): seq<BootEvent> {
    ResolvedPrefix(s) + RegisterErrorHandler(s.debug, o.resolved, Some(CreateTemporaryErrorHandler(s)))
      + [RunBootstrap]
  }

  lemma ResolvedPrefixSlot(s: Server)
    ensures AtMostOneActive({}, ResolvedPrefix(s))
    ensures Active({}, ResolvedPrefix(s)) == {CreateTemporaryErrorHandler(s)}
  {
    var temp := CreateTemporaryErrorHandler(s);
    var t1 := RegisterErrorHandler(s.debug, temp, None);
    RegisterSwapsSlot({}, s.debug, temp, None);
    QuietEvent({temp}, ResolveErrorHandler);
    AtMostOneActiveAppend({}, t1, [ResolveErrorHandler]);
    ActiveAppend({}, t1, [ResolveErrorHandler]);
  }

  lemma HooksPrefixSlot(s: Server, o: BootOracle)
    ensures AtMostOneActive({}, HooksPrefix(s, o))
    ensures Active({}, HooksPrefix(s, o)) == {o.resolved}
  {
    var temp := CreateTemporaryErrorHandler(s);
    var t2 := ResolvedPrefix(s);
    var t3 := RegisterErrorHandler(s.debug, o.resolved, Some(temp));
    ResolvedPrefixSlot(s);
    RegisterSwapsSlot({temp}, s.debug, o.resolved, Some(temp));
    AtMostOneActiveAppend({}, t2, t3);
    ActiveAppend({}, t2, t3);
    QuietEvent({o.resolved}, RunBootstrap);
    AtMostOneActiveAppend({}, t2 + t3, [RunBootstrap]);
    ActiveAppend({}, t2 + t3, [RunBootstrap]);
  }

  lemma FullTraceSlot(s: Server, o: BootOracle)
    ensures AtMostOneActive({}, HooksPrefix(s, o) + [CheckEvents])
    ensures Active({}, HooksPrefix(s, o) + [CheckEvents]) == {o.resolved}
  {
    HooksPrefixSlot(s, o);
    QuietEvent({o.resolved}, CheckEvents);
    AtMostOneActiveAppend({}, HooksPrefix(s, o), [CheckEvents]);
    ActiveAppend({}, HooksPrefix(s, o), [CheckEvents]);
  }

  /** Throughout the bootstrap, whatever fails, at most one error handler is
      registered at any time. When the bootstrap completes, only the resolved
      handler is registered; when resolution fails, the fallback stays registered. */
  lemma BootstrapSingleHandler(s: Server, o: BootOracle)
    ensures AtMostOneActive({}, Bootstrap(s, o).events)
    ensures Bootstrap(s, o).outcome.Completed? ==> Active({}, Bootstrap(s, o).events) == {o.resolved}
    ensures o.resolve.Some? ==> Active({}, Bootstrap(s, o).events) == {CreateTemporaryErrorHandler(s)}
  {
    if o.resolve.Some? {
      assert Bootstrap(s, o).events == ResolvedPrefix(s);
      ResolvedPrefixSlot(s);
    } else if o.runBootstrap.Some? {
      assert Bootstrap(s, o).events == HooksPrefix(s, o);
      HooksPrefixSlot(s, o);
    } else {
      assert Bootstrap(s, o).events == HooksPrefix(s, o) + [CheckEvents];
      FullTraceSlot(s, o);
    }
  }

  /** Without failures the bootstrap is: fallback registered (debug applied first
      when configured), real handler resolved, fallback unregistered, real handler
      registered (debug first), bootstrap hooks run, events checked. */
  lemma BootstrapOrder(s: Server, o: BootOracle)
    requires o.resolve.None? && o.runBootstrap.None? && o.checkEvents.None?
    ensures var temp := CreateTemporaryErrorHandler(s);
      var dbg := (h: ErrorHandler) => if s.debug then [Debug(h)] else [];
      && Bootstrap(s, o).outcome == Completed
      && Bootstrap(s, o).events
         == dbg(temp) + [Register(temp), ResolveErrorHandler, Unregister(temp)]
            + dbg(o.resolved) + [Register(o.resolved), RunBootstrap, CheckEvents]
  {
  }

  /** A worker whose bootstrap failed never ran the hooks after the failing step:
      no real handler is registered when resolution fails, and the events check
      only runs after the bootstrap hooks returned. */
  lemma BootstrapStopsAtFailure(s: Server, o: BootOracle)
    ensures o.resolve.Some? ==>
              (&& Count(Bootstrap(s, o).events, IsRegister) == 1
               && Count(Bootstrap(s, o).events, IsUnregister) == 0
               && Bootstrap(s, o).outcome == Propagated(o.resolve.value))
    ensures o.resolve.None? && o.runBootstrap.Some? ==>
              (&& Bootstrap(s, o).events[|Bootstrap(s, o).events| - 1] == RunBootstrap
               && Bootstrap(s, o).outcome == Propagated(o.runBootstrap.value))
    ensures Bootstrap(s, o).outcome.Completed? <==>
              o.resolve.None? && o.runBootstrap.None? && o.checkEvents.None?
  {
    var temp := CreateTemporaryErrorHandler(s);
    var t1 := RegisterErrorHandler(s.debug, temp, None);
    CountAppend(t1, [ResolveErrorHandler], IsRegister);
    CountAppend(t1, [ResolveErrorHandler], IsUnregister);
  }
}
