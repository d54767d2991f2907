/**
 * ServerInstrumentation: the lifecycle of the HTTP server thread. The
 * thread is modelled only by whether it exists and whether it is alive
 * (`isAlive()`); the server itself, the looper and the wake lock are not.
 */
module ServerLifecycle {
  import opened Common
  import opened AppiumResponses

  const MIN_PORT := 1024
  const MAX_PORT := 65535
  /** android.content.Intent.ACTION_POWER_DISCONNECTED. */
  const ACTION_POWER_DISCONNECTED := "android.intent.action.ACTION_POWER_DISCONNECTED"
  const SESSION_REMOVED: Throwable := UiAutomator2(SessionRemoved, Some("Delete Session has been invoked"))

  predicate IsValidPort(port: int)
  {
    MIN_PORT <= port <= MAX_PORT
  }

  /**
   * The part of the server's state the lifecycle changes: the server thread,
   * None when there is none and otherwise whether it is alive, and the
   * isServerStopped flag.
   */
  datatype ServerState = ServerState(thread: Option<bool>, stopped: bool)

  /** stopServerThread: no thread, nothing to do; a dead one is dropped; a live one is stopped, dropped, and the server marked stopped. */
  function StopThread(s: ServerState): (t: ServerState)
    ensures t.thread.None?
    ensures t.stopped <==> s.stopped || s.thread == Some(true)
  {
    match s.thread
    case None => s
    case Some(alive) => if !alive then s.(thread := None) else ServerState(None, true)
  }

  /**
   * What startServer does: the state it leaves and whether it went through
   * stopServer, which also clears the static instance.
   */
  datatype Started = Started(state: ServerState, instanceCleared: bool)

  /**
   * startServer: nothing while the thread is alive; a SessionRemovedException
   * when there is no thread and the server was stopped; otherwise a dead
   * thread is first stopped through stopServer, and a fresh thread is started.
   */
  function Start(s: ServerState): (r: Result<Started, Throwable>)
    ensures r.Err? <==> s.thread.None? && s.stopped
    ensures r.Err? ==> r.error == SESSION_REMOVED
    ensures r.Ok? ==> r.value.state.thread == Some(true) && r.value.state.stopped == s.stopped
    ensures r.Ok? ==> (r.value.instanceCleared <==> s.thread == Some(false))
  {
    if s.thread == Some(true) then Ok(Started(s, false))
    else if s.thread.None? && s.stopped then Err(SESSION_REMOVED)
    else
      var cleared := s.thread.Some?;
      var afterStop := if cleared then StopThread(s) else s;
      Ok(Started(afterStop.(thread := Some(true)), cleared))
  }

  /** Stopping a live server for good: once its thread is stopped, no later start succeeds. */
  lemma StopThenStartFails(s: ServerState)
    requires s.thread == Some(true)
    ensures Start(StopThread(s)) == Err(SESSION_REMOVED)
  {
  }

  /** A server never started, or whose thread merely died, can always be started, and starting twice is starting once. */
  lemma StartIsIdempotent(s: ServerState)
    requires !s.stopped
    ensures Start(s).Ok?
    ensures Start(Start(s).value.state) == Ok(Started(Start(s).value.state, false))
  {
  }

  /** Stopping the thread twice is stopping it once; the stopped flag is never reset by a stop or a start. */
  lemma StoppedIsPermanent(s: ServerState)
    ensures StopThread(StopThread(s)) == StopThread(s)
    ensures s.stopped ==> StopThread(s).stopped && (Start(s).Ok? ==> Start(s).value.state.stopped)
  {
  }

  class ServerInstrumentation {
    const serverPort: int
    var serverThread: Option<bool>
    var isServerStopped: bool

    function State(): ServerState
      reads this
    {
      ServerState(serverThread, isServerStopped)
    }

    /** The constructor, for a port already checked by `Create`. */
    constructor (serverPort: int)
      requires IsValidPort(serverPort)
      ensures this.serverPort == serverPort && serverThread.None? && !isServerStopped
    {
      this.serverPort := serverPort;
      serverThread := None;
      isServerStopped := false;
    }

    method StopServerThread()
      modifies this
      ensures State() == StopThread(old(State()))
    {
      if serverThread.None? {
        return;
      }
      if !serverThread.value {
        serverThread := None;
        return;
      }
      serverThread := None;
      isServerStopped := true;
    }

    /** stopServer: stops the thread and, whatever happens, clears the static instance. */
    method StopServer(statics: Statics)
      modifies this, statics
      ensures State() == StopThread(old(State())) && statics.instance == null
    {
      StopServerThread();
      statics.instance := null;
    }

    method StartServer(statics: Statics) returns (r: Result<(), Throwable>)
      modifies this, statics
      ensures Start(old(State())).Ok? <==> r.Ok?
      ensures r.Err? ==> r.error == SESSION_REMOVED && State() == old(State())
      ensures r.Ok? ==> State() == Start(old(State())).value.state
      ensures r.Ok? ==> (if Start(old(State())).value.instanceCleared then statics.instance == null
                         else statics.instance == old(statics.instance))
      ensures r.Err? ==> statics.instance == old(statics.instance)
    {
      if serverThread.Some? && serverThread.value {
        return Ok(());
      }
      if serverThread.None? && isServerStopped {
        return Err(SESSION_REMOVED);
      }
      if serverThread.Some? {
        StopServer(statics);
      }
      serverThread := Some(true);
      return Ok(());
    }
  }

  /** The static `instance` field of ServerInstrumentation. */
  class Statics {
    var instance: ServerInstrumentation?

    constructor ()
      ensures instance == null
    {
      instance := null;
    }
  }

  /** The constructor's port check: a port outside [MIN_PORT; MAX_PORT] is refused with a UiAutomator2Exception. */
  method Create(serverPort: int) returns (r: Result<ServerInstrumentation, Throwable>)
    ensures r.Ok? <==> IsValidPort(serverPort)
    ensures r.Ok? ==> fresh(r.value) && r.value.serverPort == serverPort && r.value.State() == ServerState(None, false)
    ensures r.Err? ==> r.error.UiAutomator2? && r.error.kind == Generic
  {
    if !IsValidPort(serverPort) {
      return Err(UiAutomator2(Generic, Some("The port is out of valid range [1024;65535]: " + IntToString(serverPort))));
    }
    var s := new ServerInstrumentation(serverPort);
    return Ok(s);
  }

  /** getInstance: the existing instance, or a new one on the configured port, which may be refused. */
  method GetInstance(statics: Statics, configuredPort: int) returns (r: Result<ServerInstrumentation, Throwable>)
    modifies statics
    ensures old(statics.instance) != null ==> r.Ok? && r.value == old(statics.instance) && statics.instance == old(statics.instance)
    ensures old(statics.instance) == null ==> (r.Ok? <==> IsValidPort(configuredPort))
    ensures old(statics.instance) == null && r.Ok? ==>
      (fresh(r.value) && statics.instance == r.value && r.value.State() == ServerState(None, false))
    ensures r.Err? ==> statics.instance == null
  {
    if statics.instance == null {
      var created := Create(configuredPort);
      if created.Err? {
        return Err(created.error);
      }
      statics.instance := created.value;
    }
    return Ok(statics.instance);
  }

  /** Whether the power receiver shuts the server down: a power-disconnected action, a live instance and the setting on. */
  predicate ShutsDown(action: Option<string>, hasInstance: bool, shutdownOnPowerDisconnect: bool)
  {
    action.Some? && EqualsIgnoreCase(ACTION_POWER_DISCONNECTED, action.value) && hasInstance && shutdownOnPowerDisconnect
  }

  /**
   * PowerConnectionReceiver.onReceive: `action` is intent.getAction() and
   * `shutdownOnPowerDisconnect` the setting's current value. Answers whether
   * the server was stopped.
   */
  method OnReceive(statics: Statics, action: Option<string>, shutdownOnPowerDisconnect: bool) returns (stopped: bool)
    modifies statics, statics.instance
    ensures stopped <==> ShutsDown(action, old(statics.instance) != null, shutdownOnPowerDisconnect)
    ensures stopped ==> statics.instance == null && old(statics.instance).State() == StopThread(old(statics.instance.State()))
    ensures !stopped ==>
      (statics.instance == old(statics.instance)
       && (statics.instance != null ==> statics.instance.State() == old(statics.instance.State())))
  {
    if action.None? || !EqualsIgnoreCase(ACTION_POWER_DISCONNECTED, action.value) {
      return false;
    }
    if statics.instance == null {
      return false;
    }
    if !shutdownOnPowerDisconnect {
      return false;
    }
    var server := statics.instance;
    server.StopServer(statics);
    return true;
  }

  /**
   * The receiver ignores every action that differs from ACTION_POWER_DISCONNECTED
   * ignoring case, and a missing action, whatever the state; with an instance
   * and the setting on, it acts on exactly the power-disconnected action.
   */
  lemma OtherActionsIgnored(action: Option<string>, hasInstance: bool, setting: bool)
    ensures (action.None? || !EqualsIgnoreCase(ACTION_POWER_DISCONNECTED, action.value)) ==> !ShutsDown(action, hasInstance, setting)
    ensures hasInstance && setting ==>
      (ShutsDown(action, hasInstance, setting) <==> action.Some? && EqualsIgnoreCase(ACTION_POWER_DISCONNECTED, action.value))
  {
  }

  /** The action is recognised in any letter case: lower-casing it changes nothing. */
  lemma ActionCaseIgnored(action: string, hasInstance: bool, setting: bool)
    ensures ShutsDown(Some(LowerAsciiString(action)), hasInstance, setting) == ShutsDown(Some(action), hasInstance, setting)
  {
    var lowered := LowerAsciiString(action);
    forall i | 0 <= i < |action|
      ensures LowerAscii(lowered[i]) == LowerAscii(action[i])
    {
      assert !IsAsciiUpper(lowered[i]);
    }
  }
}
