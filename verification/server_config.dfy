/** The configuration side of `Server`: its immutable `with...` configurators and
    the fallback error handler it creates before the object graph exists. */
module ServerConfig {
  import opened Wrappers
  import opened PhpArrays

  /** An error handler. `Fallback` is the minimal handler logging to a file under
      the root path; `Resolved` is one obtained from the container. */
  datatype ErrorHandler = Fallback(logPath: string) | Resolved(id: nat)

  /** The fields of a `Server` the adapter reads. The configuration-group names
      passed through to the runner base class are not modelled. */
  datatype Server = Server(
    rootPath: string,
    debug: bool,
    checkEvents: bool,
    environment: Option<string>,
    host: string,
    port: int,
    options: PhpArray<PhpValue>,
    temporaryErrorHandler: Option<ErrorHandler>)

  const DefaultHost: string := "127.0.0.1"
  const DefaultPort: int := 9501

  /** `new Server($rootPath, $debug, $checkEvents, $environment)`. */
  function NewServer(rootPath: string, debug: bool, checkEvents: bool, environment: Option<string>): (s: Server)
    ensures s.host == DefaultHost && s.port == DefaultPort && s.options == []
    ensures s.temporaryErrorHandler.None?
    ensures s.rootPath == rootPath && s.debug == debug && s.checkEvents == checkEvents
    ensures s.environment == environment
  {
    Server(rootPath, debug, checkEvents, environment, DefaultHost, DefaultPort, [], None)
  }

  /** `new Server($rootPath)`: the constructor's defaults, no debug mode, no
      events check, no environment. */
  function NewDefaultServer(rootPath: string): (s: Server)
    ensures !s.debug && !s.checkEvents && s.environment.None?
    ensures s.rootPath == rootPath && s.host == DefaultHost && s.port == DefaultPort && s.options == []
    ensures s.temporaryErrorHandler.None?
  {
    NewServer(rootPath, false, false, None)
  }

  /** Everything but host, port and options agrees. */
  predicate SameExceptListen(a: Server, b: Server) {
    && a.rootPath == b.rootPath && a.debug == b.debug && a.checkEvents == b.checkEvents
    && a.environment == b.environment && a.temporaryErrorHandler == b.temporaryErrorHandler
  }

  /** `withHost`: a copy with the new host; port and options are those of `s`. */
  function WithHost(s: Server, host: string): (r: Server)
    ensures r.host == host && r.port == s.port && r.options == s.options
    ensures SameExceptListen(r, s)
  {
    s.(host := host)
  }

  /** `withPort`: a copy with the new port; host and options are those of `s`. */
  function WithPort(s: Server, port: int): (r: Server)
    ensures r.port == port && r.host == s.host && r.options == s.options
    ensures SameExceptListen(r, s)
  {
    s.(port := port)
  }

  /** `withOptions`: a copy with the new options; host and port are those of `s`. */
  function WithOptions(s: Server, options: PhpArray<PhpValue>): (r: Server)
    ensures r.options == options && r.host == s.host && r.port == s.port
    ensures SameExceptListen(r, s)
  {
    s.(options := options)
  }

  /** Setting a field to the value it already has gives back the same server, and
      a later setting of the same field overrides an earlier one. */
  lemma ConfiguratorsOverride(s: Server, h1: string, h2: string, p1: int, p2: int,
                              o1: PhpArray<PhpValue>, o2: PhpArray<PhpValue>)
    ensures WithHost(s, s.host) == s && WithPort(s, s.port) == s && WithOptions(s, s.options) == s
    ensures WithHost(WithHost(s, h1), h2) == WithHost(s, h2)
    ensures WithPort(WithPort(s, p1), p2) == WithPort(s, p2)
    ensures WithOptions(WithOptions(s, o1), o2) == WithOptions(s, o2)
  {
  }

  /** The configurators touch different fields, so their order does not matter. */
  lemma ConfiguratorsCommute(s: Server, h: string, p: int, o: PhpArray<PhpValue>)
    ensures WithPort(WithHost(s, h), p) == WithHost(WithPort(s, p), h)
    ensures WithOptions(WithHost(s, h), o) == WithHost(WithOptions(s, o), h)
    ensures WithOptions(WithPort(s, p), o) == WithPort(WithOptions(s, o), p)
  {
  }

  /** Where the fallback handler logs: `runtime/logs/app.log` under the root path. */
  function FallbackLogPath(rootPath: string): string {
    rootPath + "/runtime/logs/app.log"
  }

  /** `createTemporaryErrorHandler`: the stored handler when one is stored,
      otherwise a new fallback handler logging under the root path. */
  function CreateTemporaryErrorHandler(s: Server): (h: ErrorHandler)
    ensures s.temporaryErrorHandler.Some? ==> h == s.temporaryErrorHandler.value
    ensures s.temporaryErrorHandler.None? ==> h.Fallback?
    ensures s.temporaryErrorHandler.None? ==>
              && s.rootPath <= h.logPath
              && |s.rootPath| <= |h.logPath|
              && h.logPath[|s.rootPath|..] == "/runtime/logs/app.log"
  {
    match s.temporaryErrorHandler
    case Some(h) => h
    case None => Fallback(FallbackLogPath(s.rootPath))
  }

  /** No configurator stores a handler, so a server built by the constructor and
      configured only with `with...` always gets a new fallback handler. */
  lemma ConfiguredServerHasNoCachedHandler(rootPath: string, debug: bool, checkEvents: bool,
                                           env: Option<string>, h: string, p: int, o: PhpArray<PhpValue>)
    ensures CreateTemporaryErrorHandler(WithOptions(WithPort(WithHost(NewServer(rootPath, debug, checkEvents, env), h), p), o))
         == Fallback(FallbackLogPath(rootPath))
  {
  }
}
