/**
 * The polling client: a login that re-submits itself on failure while a retry
 * budget lasts, a repeating device-list poll, and a sticky authentication-error
 * flag. Each task the executor would run is one sequential method call; the
 * re-submitted login runs as the next turn of a loop, and attempt k sees the
 * environment world(k).
 */
module AsyncFritzBox {
  import opened Base
  import opened FritzBox

  /** The retry budget the client starts with. */
  const MaxRetries: int := 10

  /** The repeating poll task: still scheduled with its period, or cancelled. */
  datatype TaskState = Scheduled(period: int) | Cancelled

  /**
   * A task is live when it is neither done nor cancelled. The poll catches every
   * exception, so a scheduled task only ends by being cancelled.
   */
  predicate IsLive(task: Option<TaskState>)
  {
    task.Some? && task.value.Scheduled?
  }

  /** The part of the client's state the login task changes. */
  datatype Link = Link(sid: string, task: Option<TaskState>, authenticationError: bool, retry: int)

  /**
   * One run of the login task: the state afterwards and whether it re-submits
   * itself. A successful login stores the SID; the task is then scheduled unless
   * one is live (a period of 0 or less makes scheduleAtFixedRate throw, which
   * counts as a failure). A failure sets the flag and spends one retry if any is
   * left; only then is the task re-submitted.
   */
  function Attempt(login: Outcome<string>, interval: int, s: Link): (Link, bool)
  {
    var sid := if login.Success? then login.value else s.sid;
    if login.Success? && IsLive(s.task) then
      (Link(sid, s.task, s.authenticationError, s.retry), false)
    else if login.Success? && interval > 0 then
      (Link(sid, Some(Scheduled(interval)), s.authenticationError, s.retry), false)
    else if s.retry > 0 then
      (Link(sid, s.task, true, s.retry - 1), true)
    else
      (Link(sid, s.task, true, s.retry), false)
  }

  /** The login task is done for good: logged in and a poll task is live. */
  predicate LoggedIn(login: Outcome<string>, interval: int, s: Link)
  {
    login.Success? && (IsLive(s.task) || interval > 0)
  }

  lemma AttemptCases(login: Outcome<string>, interval: int, s: Link)
    ensures var (t, again) := Attempt(login, interval, s);
            && (LoggedIn(login, interval, s) ==>
                  !again && IsLive(t.task) && t.sid == login.value &&
                  t.authenticationError == s.authenticationError && t.retry == s.retry)
            && (!LoggedIn(login, interval, s) ==>
                  t.authenticationError && t.task == s.task &&
                  again == (s.retry > 0) && t.retry == (if s.retry > 0 then s.retry - 1 else s.retry))
  {
  }

  /**
   * The state after the login task ran once per outcome in logins, started from
   * s, and whether one more run is pending. The first run is always pending; a
   * run that does not re-submit ends the chain and later outcomes are ignored.
   */
  function Retried(logins: seq<Outcome<string>>, interval: int, s: Link): (Link, bool)
    decreases |logins|
  {
    if |logins| == 0 then (s, true)
    else
      var before := Retried(logins[..|logins| - 1], interval, s);
      if before.1 then Attempt(logins[|logins| - 1], interval, before.0) else before
  }

  /** The login outcomes of the first n runs, run k seeing the environment world(k). */
  function LoginsFor(world: nat -> Env, address: string, password: string, n: nat): (r: seq<Outcome<string>>)
    ensures |r| == n
  {
    if n == 0 then [] else LoginsFor(world, address, password, n - 1) + [Authenticate(world(n - 1), address, password)]
  }

  /** Run k's outcome is the login against world(k). */
  lemma {:induction false} LoginsForAt(world: nat -> Env, address: string, password: string, n: nat, k: nat)
    requires k < n
    ensures LoginsFor(world, address, password, n)[k] == Authenticate(world(k), address, password)
  {
    if k < n - 1 {
      LoginsForAt(world, address, password, n - 1, k);
    }
  }

  /** One more outcome extends a pending chain by one run and leaves an ended chain alone. */
  lemma RetriedNext(logins: seq<Outcome<string>>, login: Outcome<string>, interval: int, s: Link)
    ensures var before := Retried(logins, interval, s);
            Retried(logins + [login], interval, s) ==
              if before.1 then Attempt(login, interval, before.0) else before
  {
    assert (logins + [login])[..|logins|] == logins;
  }

  /** Once the chain has ended it stays ended. */
  lemma {:induction false} EndedStaysEnded(logins: seq<Outcome<string>>, interval: int, s: Link, m: nat)
    requires m <= |logins|
    requires !Retried(logins[..m], interval, s).1
    ensures !Retried(logins, interval, s).1
    decreases |logins|
  {
    if m < |logins| {
      var previous := logins[..|logins| - 1];
      assert previous[..m] == logins[..m];
      EndedStaysEnded(previous, interval, s, m);
    } else {
      assert logins[..m] == logins;
    }
  }

  /** While runs are still pending, each earlier run failed and spent one retry. */
  lemma {:induction false} PendingSpendsBudget(logins: seq<Outcome<string>>, interval: int, s: Link)
    requires s.retry >= 0
    requires Retried(logins, interval, s).1
    ensures Retried(logins, interval, s).0.retry == s.retry - |logins|
    ensures |logins| <= s.retry
    decreases |logins|
  {
    if |logins| > 0 {
      var previous := logins[..|logins| - 1];
      var before := Retried(previous, interval, s);
      assert before.1;
      PendingSpendsBudget(previous, interval, s);
      AttemptCases(logins[|logins| - 1], interval, before.0);
    }
  }

  /** The budget is decremented only while positive: it never goes below 0 nor above its start. */
  lemma {:induction false} RetryInBudget(logins: seq<Outcome<string>>, interval: int, s: Link)
    requires s.retry >= 0
    ensures 0 <= Retried(logins, interval, s).0.retry <= s.retry
    decreases |logins|
  {
    if |logins| > 0 {
      var previous := logins[..|logins| - 1];
      RetryInBudget(previous, interval, s);
      AttemptCases(logins[|logins| - 1], interval, Retried(previous, interval, s).0);
    }
  }

  /**
   * A run is only made while the chain is pending, so with retry budget r a
   * connect makes at most r + 1 login attempts; the first connect, at most 11.
   */
  lemma AttemptsWithinBudget(logins: seq<Outcome<string>>, interval: int, s: Link)
    requires s.retry >= 0
    requires 1 <= |logins| && Retried(logins[..|logins| - 1], interval, s).1
    ensures |logins| <= s.retry + 1
    ensures s.retry == MaxRetries ==> |logins| <= 11
  {
    PendingSpendsBudget(logins[..|logins| - 1], interval, s);
  }

  /** The login chain has ended after retry + 1 runs, whatever the outcomes. */
  lemma ChainEnds(logins: seq<Outcome<string>>, interval: int, s: Link)
    requires s.retry >= 0
    requires |logins| > s.retry
    ensures !Retried(logins, interval, s).1
  {
    if Retried(logins, interval, s).1 {
      PendingSpendsBudget(logins, interval, s);
      assert false;
    }
  }

  /** No run of the login task ever clears the authentication-error flag. */
  lemma {:induction false} ErrorIsSticky(logins: seq<Outcome<string>>, interval: int, s: Link, m: nat)
    requires m <= |logins|
    requires Retried(logins[..m], interval, s).0.authenticationError
    ensures Retried(logins, interval, s).0.authenticationError
    decreases |logins|
  {
    if m < |logins| {
      var previous := logins[..|logins| - 1];
      assert previous[..m] == logins[..m];
      ErrorIsSticky(previous, interval, s, m);
      AttemptCases(logins[|logins| - 1], interval, Retried(previous, interval, s).0);
    } else {
      assert logins[..m] == logins;
    }
  }

  /** When a second run was made, the first one failed, so the flag is set from then on. */
  lemma RetryMeansError(logins: seq<Outcome<string>>, interval: int, s: Link)
    requires 2 <= |logins| && Retried(logins[..|logins| - 1], interval, s).1
    ensures Retried(logins, interval, s).0.authenticationError
  {
    var previous := logins[..|logins| - 1];
    assert previous[..1] == logins[..1];
    if !Retried(logins[..1], interval, s).1 {
      EndedStaysEnded(previous, interval, s, 1);
    }
    assert logins[..1] == [] + [logins[0]];
    RetriedNext([], logins[0], interval, s);
    AttemptCases(logins[0], interval, s);
    ErrorIsSticky(logins, interval, s, 1);
  }

  /**
   * One poll, as a function of the flag and the environment: the flag afterwards
   * and the listener calls made. A set flag suppresses the poll entirely; a
   * failure sets the flag and calls nobody; a null device list calls nobody.
   */
  function Poll(env: Env, address: string, sid: string, authenticationError: bool,
                listeners: seq<ListenerId>): (bool, seq<Delivery<Network>>)
  {
    if authenticationError then (true, [])
    else
      match FetchNetwork(env, address, sid)
      case Failure(_) => (true, [])
      case Success(None) => (false, [])
      case Success(Some(network)) => (false, FanOut(listeners, network))
  }

  /**
   * What a poll does: nothing under a set flag; otherwise a device list goes to
   * every listener once, in registration order, and a failure only sets the flag.
   */
  lemma PollEffect(env: Env, address: string, sid: string, authenticationError: bool,
                   listeners: seq<ListenerId>)
    ensures var (flag, calls) := Poll(env, address, sid, authenticationError, listeners);
            && (authenticationError ==> flag && calls == [])
            && (flag <==> authenticationError || FetchNetwork(env, address, sid).Failure?)
            && (calls != [] ==>
                  !authenticationError &&
                  FetchNetwork(env, address, sid).Success? && FetchNetwork(env, address, sid).value.Some?)
            && (!authenticationError && FetchNetwork(env, address, sid).Success? &&
                FetchNetwork(env, address, sid).value.Some? ==>
                  |calls| == |listeners| &&
                  forall i :: 0 <= i < |listeners| ==>
                    calls[i] == Delivery(listeners[i], FetchNetwork(env, address, sid).value.value))
  {
    if !authenticationError && FetchNetwork(env, address, sid).Success? && FetchNetwork(env, address, sid).value.Some? {
      var network := FetchNetwork(env, address, sid).value.value;
      forall i | 0 <= i < |listeners| ensures FanOut(listeners, network)[i] == Delivery(listeners[i], network) {
        FanOutAt(listeners, network, i);
      }
    }
  }

  /** AsyncFritzBoxAPI: the router client, its poll task, the flag, the retry budget and the listeners. */
  class AsyncFritzBoxApi {
    const api: FritzBoxApi
    var task: Option<TaskState>
    var authenticationError: bool
    var retry: int
    var listeners: seq<ListenerId>
    /** Every listener call made so far, in order. */
    var deliveries: seq<Delivery<Network>>

    /** The budget stays between 0 and 10. */
    ghost predicate Valid()
      reads this`retry
    {
      0 <= retry <= MaxRetries
    }

    function State(): Link
      reads this`task, this`authenticationError, this`retry, api`sid
    {
      Link(api.sid, task, authenticationError, retry)
    }

    constructor (address: string)
      ensures Valid()
      ensures api.address == address && api.sid == ""
      ensures task.None? && !authenticationError && retry == MaxRetries
      ensures listeners == [] && deliveries == []
    {
      api := new FritzBoxApi(address);
      task := None;
      authenticationError := false;
      retry := MaxRetries;
      listeners := [];
      deliveries := [];
    }

    /** The client for the default address fritz.box. */
    constructor Default()
      ensures Valid()
      ensures api.address == DefaultAddress && api.sid == ""
      ensures task.None? && !authenticationError && retry == MaxRetries
      ensures listeners == [] && deliveries == []
    {
      api := new FritzBoxApi.Default();
      task := None;
      authenticationError := false;
      retry := MaxRetries;
      listeners := [];
      deliveries := [];
    }

    /** One run of the login task; reconnect says whether it re-submitted itself. */
    method ConnectOnce(env: Env, password: string, interval: int) returns (reconnect: bool, login: Outcome<string>)
      modifies api`sid, this`task, this`authenticationError, this`retry
      ensures login == Authenticate(env, api.address, password)
      ensures (State(), reconnect) == Attempt(login, interval, old(State()))
    {
      login := api.Connect(env, password);
      if login.Success? {
        if IsLive(task) {
          return false, login;
        }
        if interval > 0 {
          task := Some(Scheduled(interval));
          return false, login;
        }
      }
      authenticationError := true;
      reconnect := false;
      if retry > 0 {
        retry := retry - 1;
        reconnect := true;
      }
    }

    /**
     * connect(password, updateInterval): the login task and every run it
     * re-submits, until one does not; logins holds each run's login outcome,
     * run k seeing the environment world(k).
     */
    method Connect(world: nat -> Env, password: string, interval: int) returns (logins: seq<Outcome<string>>)
      requires Valid()
      modifies api`sid, this`task, this`authenticationError, this`retry
      ensures Valid()
      ensures 1 <= |logins| <= old(retry) + 1
      ensures logins == LoginsFor(world, api.address, password, |logins|)
      ensures Retried(logins[..|logins| - 1], interval, old(State())).1
      ensures (State(), false) == Retried(logins, interval, old(State()))
      ensures old(authenticationError) || |logins| > 1 ==> authenticationError
    {
      ghost var s0 := State();
      var pending := true;
      logins := [];
      while pending
        invariant Valid()
        invariant (State(), pending) == Retried(logins, interval, s0)
        invariant |logins| >= 1 ==> Retried(logins[..|logins| - 1], interval, s0).1
        invariant logins == LoginsFor(world, api.address, password, |logins|)
        decreases if pending then retry + 1 else 0
      {
        ghost var before := State();
        ghost var previous := logins;
        var reconnect, login := ConnectOnce(world(|logins|), password, interval);
        logins := logins + [login];
        RetriedNext(previous, login, interval, s0);
        assert logins[..|logins| - 1] == previous;
        AttemptCases(login, interval, before);
        pending := reconnect;
      }
      AttemptsWithinBudget(logins, interval, s0);
      if s0.authenticationError {
        assert logins[..0] == [];
        ErrorIsSticky(logins, interval, s0, 0);
      }
      if |logins| > 1 {
        RetryMeansError(logins, interval, s0);
      }
    }

    /** disconnect: cancel the task if there is one. */
    method Disconnect()
      modifies this`task
      ensures task == if old(task).Some? then Some(Cancelled) else None
    {
      if task.Some? {
        task := Some(Cancelled);
      }
    }

    /** updateNetworkDevices: one run of the poll task. */
    method UpdateNetworkDevices(env: Env)
      modifies this`authenticationError, this`deliveries
      ensures var (flag, calls) := Poll(env, api.address, api.sid, old(authenticationError), listeners);
              authenticationError == flag && deliveries == old(deliveries) + calls
    {
      if authenticationError {
        return;
      }
      var result := api.GetNetworkDevices(env);
      if result.Failure? {
        authenticationError := true;
        return;
      }
      if result.value.Some? {
        var network := result.value.value;
        var i := 0;
        while i < |listeners|
          invariant 0 <= i <= |listeners|
          invariant deliveries == old(deliveries) + FanOut(listeners[..i], network)
          modifies this`deliveries
        {
          assert listeners[..i + 1][..i] == listeners[..i];
          deliveries := deliveries + [Delivery(listeners[i], network)];
          i := i + 1;
        }
        assert listeners[..i] == listeners;
      }
    }

    method RegisterNetworkListener(listener: ListenerId)
      modifies this`listeners
      ensures listeners == old(listeners) + [listener]
    {
      listeners := listeners + [listener];
    }

    method SetAddress(address: string)
      modifies api`address
      ensures api.address == address
    {
      api.address := address;
    }
  }
}
