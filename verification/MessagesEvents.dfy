/**
 * The events socket's reconnect machine: tickets, generations, backoff,
 * auth recovery, foreground and cleanup
 * (farcaster-audio/hooks/useMessagesEvents.ts).
 */
module MessagesEvents {
  import opened Options

  const RECONNECT_BASE_MS := 1000
  const RECONNECT_MAX_MS := 30_000
  const RATE_LIMITED_RECONNECT_MS := 60_000
  const MAX_AUTH_RECOVERY_FAILURES := 5

  // ---------------------------------------------------------------------
  // Classification and backoff
  // ---------------------------------------------------------------------

  datatype CloseAction =
    | RefreshAuth(isSessionExpired: bool)
    | Remint
    | StopAccess
    | StopDisabled
    | Backoff(minDelayMs: nat)

  function ClassifyClose(code: Option<int>, reason: Option<string>): CloseAction {
    if code == Some(4401) then
      if reason == Some("ticket_rejected") then Remint
      else RefreshAuth(reason == Some("session_expired"))
    else if code == Some(4403) then StopAccess
    else if code == Some(4404) then StopDisabled
    else if code == Some(4429) then Backoff(RATE_LIMITED_RECONNECT_MS)
    else Backoff(0)
  }

  /** Why minting a ticket failed; `Unclassified` covers errors that are not API errors. */
  datatype TicketError = Unauthorized | Unavailable | NotFound | RateLimited | OtherCode | Unclassified

  function ClassifyTicketError(error: TicketError): CloseAction {
    match error
    case Unauthorized => RefreshAuth(false)
    case Unavailable => StopDisabled
    case NotFound => StopDisabled
    case RateLimited => Backoff(RATE_LIMITED_RECONNECT_MS)
    case OtherCode => Backoff(0)
    case Unclassified => Backoff(0)
  }

  function Pow2(n: nat): nat {
    if n == 0 then 1 else 2 * Pow2(n - 1)
  }

  function ComputeReconnectDelay(attempt: nat, minDelayMs: nat): nat {
    var exponential :=
      if RECONNECT_BASE_MS * Pow2(attempt) < RECONNECT_MAX_MS then RECONNECT_BASE_MS * Pow2(attempt)
      else RECONNECT_MAX_MS;
    if exponential > minDelayMs then exponential else minDelayMs
  }

  lemma {:induction false} Pow2IsMonotone(m: nat, n: nat)
    requires m <= n
    ensures 1 <= Pow2(m) <= Pow2(n)
    decreases n
  {
    if m < n {
      Pow2IsMonotone(m, n - 1);
    } else if n > 0 {
      Pow2IsMonotone(n - 1, n - 1);
    }
  }

  /** Each delay respects its minimum and the cap, grows with the attempt, and doubles below the cap. */
  lemma BackoffIsBoundedAndMonotone(attempt: nat, later: nat, minDelayMs: nat)
    requires attempt <= later
    ensures var d := ComputeReconnectDelay(attempt, minDelayMs);
      minDelayMs <= d && RECONNECT_BASE_MS <= d &&
      (d <= RECONNECT_MAX_MS || d == minDelayMs) &&
      d <= ComputeReconnectDelay(later, minDelayMs) &&
      (attempt < 5 ==> ComputeReconnectDelay(attempt, 0) == RECONNECT_BASE_MS * Pow2(attempt)) &&
      (attempt >= 5 ==> ComputeReconnectDelay(attempt, 0) == RECONNECT_MAX_MS)
  {
    Pow2IsMonotone(attempt, later);
    if attempt < 5 {
      Pow2IsMonotone(attempt, 4);
      assert Pow2(4) == 2 * Pow2(3) == 4 * Pow2(2) == 8 * Pow2(1) == 16;
    } else {
      Pow2IsMonotone(5, attempt);
      assert Pow2(5) == 2 * Pow2(4) == 4 * Pow2(3) == 8 * Pow2(2) == 16 * Pow2(1) == 32;
    }
  }

  // ---------------------------------------------------------------------
  // State
  // ---------------------------------------------------------------------

  /** `isTold`: `close()` was called on it. `isClosed`: its close event was delivered. */
  datatype Socket = Socket(generation: nat, isOpened: bool, isTold: bool, isClosed: bool)

  /** Where a `connect` call is waiting: for stored tokens, or for its ticket. */
  datatype ConnectPhase = ReadingTokens | MintingTicket

  datatype RefreshOutcome = Thrown | SessionEnded | Refreshed

  /**
   * The closure's variables, then what it has set going in the environment
   * (`sockets` ever created, `armed` timers with their delays, `connects` and
   * `refreshing` awaits), then counters over the current interval, which
   * starts at a socket open or at a foreground that restarts after giving up.
   */
  datatype State = State(
    cancelled: bool,
    isStopped: bool,
    hasGivenUp: bool,
    hasRefreshedAuth: bool,
    authRecoveryFailures: nat,
    socket: Option<nat>,
    reconnectTimer: Option<nat>,
    attempt: nat,
    pendingMinDelayMs: nat,
    connectGeneration: nat,
    sockets: seq<Socket>,
    armed: map<nat, nat>,
    timersCreated: nat,
    connects: map<nat, ConnectPhase>,
    refreshing: nat,
    refreshStarts: nat,
    expiredAfterRefresh: nat,
    stoppedRefreshes: nat)

  // ---------------------------------------------------------------------
  // The closure's functions
  // ---------------------------------------------------------------------

  function TimersCleared(s: State): State {
    if s.reconnectTimer == None then s
    else s.(armed := s.armed - {s.reconnectTimer.value}, reconnectTimer := None)
  }

  function TellToClose(s: State, i: nat): State {
    if i >= |s.sockets| then s else s.(sockets := s.sockets[i := s.sockets[i].(isTold := true)])
  }

  /** `closeSocket`: detach first, then `close()`. */
  function SocketClosed(s: State): State {
    if s.socket == None then s else TellToClose(s.(socket := None), s.socket.value)
  }

  function ReconnectScheduled(s: State, minDelayMs: nat): State {
    if s.cancelled || s.isStopped || s.reconnectTimer.Some? then s
    else
      s.(reconnectTimer := Some(s.timersCreated),
         armed := s.armed[s.timersCreated := ComputeReconnectDelay(s.attempt, minDelayMs)],
         timersCreated := s.timersCreated + 1,
         pendingMinDelayMs := minDelayMs,
         attempt := s.attempt + 1)
  }

  function Stopped(s: State): State {
    TimersCleared(s.(isStopped := true))
  }

  function GivenUp(s: State): State {
    Stopped(s).(hasGivenUp := true)
  }

  function FailureRecorded(s: State): State {
    var counted := s.(authRecoveryFailures := s.authRecoveryFailures + 1);
    if counted.authRecoveryFailures >= MAX_AUTH_RECOVERY_FAILURES then GivenUp(counted)
    else ReconnectScheduled(counted, 0)
  }

  /** `handleUnauthorized` up to its await. */
  function UnauthorizedHandled(s: State, isSessionExpired: bool): State {
    var t :=
      if isSessionExpired then
        s.(hasRefreshedAuth := false,
           expiredAfterRefresh := s.expiredAfterRefresh + if s.hasRefreshedAuth then 1 else 0)
      else s;
    if t.hasRefreshedAuth then FailureRecorded(t)
    else
      t.(hasRefreshedAuth := true,
         refreshing := t.refreshing + 1,
         refreshStarts := t.refreshStarts + 1,
         stoppedRefreshes := t.stoppedRefreshes + if t.isStopped then 1 else 0)
  }

  /** `handleUnauthorized` after its await. */
  function RefreshSettled(s: State, outcome: RefreshOutcome): State
    requires s.refreshing > 0
  {
    var t := s.(refreshing := s.refreshing - 1);
    if t.cancelled then t else RefreshContinued(t, outcome)
  }

  function RefreshContinued(s: State, outcome: RefreshOutcome): State {
    match outcome
    case Thrown => FailureRecorded(s.(hasRefreshedAuth := false))
    case SessionEnded => Stopped(s)
    case Refreshed => ReconnectScheduled(s, 0)
  }

  function ActionHandled(s: State, action: CloseAction): State {
    match action
    case RefreshAuth(isSessionExpired) => UnauthorizedHandled(s, isSessionExpired)
    case Remint => ReconnectScheduled(s, 0)
    case StopAccess => Stopped(s)
    case StopDisabled => Stopped(s)
    case Backoff(minDelayMs) => ReconnectScheduled(s, minDelayMs)
  }

  /** `connect` up to reading the tokens. */
  function Connecting(s: State): State {
    if s.cancelled || s.isStopped then s
    else
      s.(connectGeneration := s.connectGeneration + 1,
         connects := s.connects[s.connectGeneration + 1 := ReadingTokens])
  }

  function TokensRead(s: State, generation: nat, hasJwt: bool): State {
    if s.cancelled || s.isStopped || !hasJwt then s.(connects := s.connects - {generation})
    else s.(connects := s.connects[generation := MintingTicket])
  }

  predicate IsSuperseded(s: State, generation: nat) {
    s.cancelled || s.isStopped || generation != s.connectGeneration
  }

  function MintFailed(s: State, generation: nat, error: TicketError): State {
    var t := s.(connects := s.connects - {generation});
    if IsSuperseded(s, generation) then t else ActionHandled(t, ClassifyTicketError(error))
  }

  function MintSucceeded(s: State, generation: nat): State {
    var t := s.(connects := s.connects - {generation});
    if IsSuperseded(s, generation) then t
    else
      var closed := SocketClosed(t);
      closed.(socket := Some(|closed.sockets|),
              sockets := closed.sockets + [Socket(generation, false, false, false)])
  }

  function Opened(s: State, i: nat): State
    requires i < |s.sockets|
  {
    s.(sockets := s.sockets[i := s.sockets[i].(isOpened := true)],
       attempt := 0, hasRefreshedAuth := false, authRecoveryFailures := 0,
       refreshStarts := 0, expiredAfterRefresh := 0, stoppedRefreshes := 0)
  }

  function Closed(s: State, i: nat, action: CloseAction): State
    requires i < |s.sockets|
  {
    var t := s.(sockets := s.sockets[i := s.sockets[i].(isClosed := true)]);
    if s.socket != Some(i) then t else ActionHandled(t.(socket := None), action)
  }

  /** `abandonSilentSocket`, from the keepalive interval of socket `i`. */
  function AbandonSilent(s: State, i: nat): State {
    if s.socket != Some(i) then s else ReconnectScheduled(SocketClosed(s), 0)
  }

  function TimerFired(s: State, timer: nat): State {
    Connecting(s.(reconnectTimer := None, armed := s.armed - {timer}))
  }

  function Afresh(s: State): State {
    s.(hasGivenUp := false, isStopped := false, authRecoveryFailures := 0, hasRefreshedAuth := false, attempt := 0,
       refreshStarts := 0, expiredAfterRefresh := 0, stoppedRefreshes := 0)
  }

  function Foreground(s: State, isStale: bool): State {
    if s.hasGivenUp then Connecting(Afresh(s))
    else if s.isStopped || !isStale then s
    else if s.reconnectTimer.Some? && s.pendingMinDelayMs > 0 then s
    else Connecting(TimersCleared(s).(attempt := 0))
  }

  function Cleanup(s: State): State {
    SocketClosed(TimersCleared(s.(cancelled := true)))
  }

  const MOUNTED := State(false, false, false, false, 0, None, None, 0, 0, 0, [], map[], 0, map[], 0, 0, 0, 0)

  /** The effect body ends with a first `connect()`. */
  const INITIAL := Connecting(MOUNTED)

  // ---------------------------------------------------------------------
  // The closure itself
  // ---------------------------------------------------------------------

  /** The effect's variables, updated in place by its handlers; the counters are for proofs only. */
  class EventsConnection {
    var cancelled: bool
    var isStopped: bool
    var hasGivenUp: bool
    var hasRefreshedAuth: bool
    var authRecoveryFailures: nat
    var socket: Option<nat>
    var reconnectTimer: Option<nat>
    var attempt: nat
    var pendingMinDelayMs: nat
    var connectGeneration: nat
    var sockets: seq<Socket>
    var armed: map<nat, nat>
    var timersCreated: nat
    var connects: map<nat, ConnectPhase>
    var refreshing: nat
    ghost var refreshStarts: nat
    ghost var expiredAfterRefresh: nat
    ghost var stoppedRefreshes: nat

    ghost function Now(): State
      reads this
    {
      State(cancelled, isStopped, hasGivenUp, hasRefreshedAuth, authRecoveryFailures, socket, reconnectTimer,
            attempt, pendingMinDelayMs, connectGeneration, sockets, armed, timersCreated, connects, refreshing,
            refreshStarts, expiredAfterRefresh, stoppedRefreshes)
    }

    ghost predicate Valid()
      reads this
    {
      Inv(Now())
    }

    constructor ()
      ensures Valid() && Now() == INITIAL
    {
      cancelled, isStopped, hasGivenUp, hasRefreshedAuth := false, false, false, false;
      authRecoveryFailures, attempt, pendingMinDelayMs, connectGeneration := 0, 0, 0, 0;
      socket, reconnectTimer := None, None;
      sockets, armed, timersCreated, connects, refreshing := [], map[], 0, map[], 0;
      refreshStarts, expiredAfterRefresh, stoppedRefreshes := 0, 0, 0;
      new;
      Connect();
    }

    method ClearTimers()
      modifies this
      ensures Now() == TimersCleared(old(Now()))
    {
      if reconnectTimer.Some? {
        armed := armed - {reconnectTimer.value};
      }
      reconnectTimer := None;
    }

    method CloseSocket()
      modifies this
      ensures Now() == SocketClosed(old(Now()))
    {
      var current := socket;
      socket := None;
      if current.Some? && current.value < |sockets| {
        sockets := sockets[current.value := sockets[current.value].(isTold := true)];
      }
    }

    method ScheduleReconnect(minDelayMs: nat)
      modifies this
      ensures Now() == ReconnectScheduled(old(Now()), minDelayMs)
    {
      if cancelled || isStopped || reconnectTimer.Some? {
        return;
      }
      var delay := ComputeReconnectDelay(attempt, minDelayMs);
      pendingMinDelayMs := minDelayMs;
      attempt := attempt + 1;
      reconnectTimer := Some(timersCreated);
      armed := armed[timersCreated := delay];
      timersCreated := timersCreated + 1;
    }

    method Stop()
      modifies this
      ensures Now() == Stopped(old(Now()))
    {
      isStopped := true;
      ClearTimers();
    }

    method RecordAuthRecoveryFailure()
      modifies this
      ensures Now() == FailureRecorded(old(Now()))
    {
      authRecoveryFailures := authRecoveryFailures + 1;
      if authRecoveryFailures >= MAX_AUTH_RECOVERY_FAILURES {
        Stop();
        hasGivenUp := true;
        return;
      }
      ScheduleReconnect(0);
    }

    method HandleUnauthorized(isSessionExpired: bool)
      modifies this
      ensures Now() == UnauthorizedHandled(old(Now()), isSessionExpired)
    {
      if isSessionExpired {
        expiredAfterRefresh := expiredAfterRefresh + if hasRefreshedAuth then 1 else 0;
        hasRefreshedAuth := false;
      }
      if hasRefreshedAuth {
        RecordAuthRecoveryFailure();
        return;
      }
      hasRefreshedAuth := true;
      refreshing := refreshing + 1;
      refreshStarts := refreshStarts + 1;
      stoppedRefreshes := stoppedRefreshes + if isStopped then 1 else 0;
    }

    method OnRefreshSettled(outcome: RefreshOutcome)
      requires refreshing > 0
      modifies this
      ensures Now() == RefreshSettled(old(Now()), outcome)
    {
      refreshing := refreshing - 1;
      if !cancelled {
        ContinueAfterRefresh(outcome);
      }
    }

    method ContinueAfterRefresh(outcome: RefreshOutcome)
      modifies this
      ensures Now() == RefreshContinued(old(Now()), outcome)
    {
      match outcome
      case Thrown =>
        hasRefreshedAuth := false;
        RecordAuthRecoveryFailure();
      case SessionEnded => Stop();
      case Refreshed => ScheduleReconnect(0);
    }

    method HandleAction(action: CloseAction)
      modifies this
      ensures Now() == ActionHandled(old(Now()), action)
    {
      match action
      case RefreshAuth(isSessionExpired) => HandleUnauthorized(isSessionExpired);
      case Remint => ScheduleReconnect(0);
      case StopAccess => Stop();
      case StopDisabled => Stop();
      case Backoff(minDelayMs) => ScheduleReconnect(minDelayMs);
    }

    method Connect()
      modifies this
      ensures Now() == Connecting(old(Now()))
    {
      if cancelled || isStopped {
        return;
      }
      connectGeneration := connectGeneration + 1;
      connects := connects[connectGeneration := ReadingTokens];
    }

    method OnTokensRead(generation: nat, hasJwt: bool)
      modifies this
      ensures Now() == TokensRead(old(Now()), generation, hasJwt)
    {
      if cancelled || isStopped || !hasJwt {
        connects := connects - {generation};
        return;
      }
      connects := connects[generation := MintingTicket];
    }

    method OnMintFailed(generation: nat, error: TicketError)
      modifies this
      ensures Now() == MintFailed(old(Now()), generation, error)
    {
      connects := connects - {generation};
      if cancelled || isStopped || generation != connectGeneration {
        return;
      }
      HandleAction(ClassifyTicketError(error));
    }

    method OnMintSucceeded(generation: nat)
      modifies this
      ensures Now() == MintSucceeded(old(Now()), generation)
    {
      connects := connects - {generation};
      if cancelled || isStopped || generation != connectGeneration {
        return;
      }
      CloseSocket();
      socket := Some(|sockets|);
      sockets := sockets + [Socket(generation, false, false, false)];
    }

    method OnOpen(i: nat)
      requires i < |sockets|
      modifies this
      ensures Now() == Opened(old(Now()), i)
    {
      sockets := sockets[i := sockets[i].(isOpened := true)];
      attempt := 0;
      hasRefreshedAuth := false;
      authRecoveryFailures := 0;
      StartInterval();
    }

    ghost method StartInterval()
      modifies `refreshStarts, `expiredAfterRefresh, `stoppedRefreshes
      ensures Now() == old(Now()).(refreshStarts := 0, expiredAfterRefresh := 0, stoppedRefreshes := 0)
    {
      refreshStarts, expiredAfterRefresh, stoppedRefreshes := 0, 0, 0;
    }

    /** `onerror`: the socket is told to close. */
    method OnError(i: nat)
      requires i < |sockets|
      modifies this
      ensures Now() == TellToClose(old(Now()), i)
    {
      sockets := sockets[i := sockets[i].(isTold := true)];
    }

    method OnClose(i: nat, code: Option<int>, reason: Option<string>)
      requires i < |sockets|
      modifies this
      ensures Now() == Closed(old(Now()), i, ClassifyClose(code, reason))
    {
      sockets := sockets[i := sockets[i].(isClosed := true)];
      if socket != Some(i) {
        return;
      }
      socket := None;
      HandleAction(ClassifyClose(code, reason));
    }

    method AbandonSilentSocket(i: nat)
      modifies this
      ensures Now() == AbandonSilent(old(Now()), i)
    {
      if socket != Some(i) {
        return;
      }
      CloseSocket();
      ScheduleReconnect(0);
    }

    method OnTimer(timer: nat)
      modifies this
      ensures Now() == TimerFired(old(Now()), timer)
    {
      armed := armed - {timer};
      reconnectTimer := None;
      Connect();
    }

    method OnForeground(isStale: bool)
      modifies this
      ensures Now() == Foreground(old(Now()), isStale)
    {
      if hasGivenUp {
        StartAfresh();
        Connect();
        return;
      }
      if isStopped || !isStale {
        return;
      }
      if reconnectTimer.Some? && pendingMinDelayMs > 0 {
        return;
      }
      ClearTimers();
      attempt := 0;
      Connect();
    }

    method StartAfresh()
      modifies this
      ensures Now() == Afresh(old(Now()))
    {
      hasGivenUp := false;
      isStopped := false;
      authRecoveryFailures := 0;
      hasRefreshedAuth := false;
      attempt := 0;
      StartInterval();
    }

    method OnUnmount()
      modifies this
      ensures Now() == Cleanup(old(Now()))
    {
      cancelled := true;
      ClearTimers();
      CloseSocket();
    }

    /** One event reaches its handler: the closure takes the step, and what every run keeps still holds. */
    method Deliver(step: Step)
      requires Valid() && Enabled(Now(), step)
      modifies this
      ensures Valid() && Now() == Next(old(Now()), step)
    {
      StepKeepsInv(Now(), step);
      match step
      case StepTokensRead(generation, hasJwt) => OnTokensRead(generation, hasJwt);
      case StepMintFailed(generation, error) => OnMintFailed(generation, error);
      case StepMintSucceeded(generation) => OnMintSucceeded(generation);
      case StepRefreshSettled(outcome) => OnRefreshSettled(outcome);
      case StepOpened(i) => OnOpen(i);
      case StepErrored(i) => OnError(i);
      case StepClosed(i, code, reason) => OnClose(i, code, reason);
      case StepSilent(i) => AbandonSilentSocket(i);
      case StepTimerFired(timer) => OnTimer(timer);
      case StepForeground(isStale) => OnForeground(isStale);
      case StepCleanup => OnUnmount();
    }
  }

  // ---------------------------------------------------------------------
  // Interleavings
  // ---------------------------------------------------------------------

  datatype Step =
    | StepTokensRead(generation: nat, hasJwt: bool)
    | StepMintFailed(generation: nat, error: TicketError)
    | StepMintSucceeded(generation: nat)
    | StepRefreshSettled(outcome: RefreshOutcome)
    | StepOpened(i: nat)
    | StepErrored(i: nat)
    | StepClosed(i: nat, code: Option<int>, reason: Option<string>)
    | StepSilent(i: nat)
    | StepTimerFired(timer: nat)
    | StepForeground(isStale: bool)
    | StepCleanup

  /**
   * What the environment may do: a socket told to close never opens, each
   * close event is delivered once, `session_expired` closes only a socket that
   * opened, and only a current, open socket can pass for fresh.
   */
  predicate Enabled(s: State, step: Step) {
    match step
    case StepTokensRead(g, _) => g in s.connects && s.connects[g] == ReadingTokens
    case StepMintFailed(g, _) => g in s.connects && s.connects[g] == MintingTicket
    case StepMintSucceeded(g) => g in s.connects && s.connects[g] == MintingTicket
    case StepRefreshSettled(_) => s.refreshing > 0
    case StepOpened(i) =>
      i < |s.sockets| && !s.sockets[i].isOpened && !s.sockets[i].isTold && !s.sockets[i].isClosed
    case StepErrored(i) => i < |s.sockets| && !s.sockets[i].isClosed
    case StepClosed(i, code, reason) =>
      i < |s.sockets| && !s.sockets[i].isClosed &&
      (reason == Some("session_expired") ==> s.sockets[i].isOpened)
    case StepSilent(i) => i < |s.sockets| && s.sockets[i].isOpened
    case StepTimerFired(timer) => timer in s.armed
    case StepForeground(isStale) =>
      !s.cancelled &&
      (s.socket == None || (s.socket.value < |s.sockets| && !s.sockets[s.socket.value].isOpened) ==> isStale)
    case StepCleanup => !s.cancelled
  }

  function Next(s: State, step: Step): State
    requires Enabled(s, step)
  {
    match step
    case StepTokensRead(g, hasJwt) => TokensRead(s, g, hasJwt)
    case StepMintFailed(g, error) => MintFailed(s, g, error)
    case StepMintSucceeded(g) => MintSucceeded(s, g)
    case StepRefreshSettled(outcome) => RefreshSettled(s, outcome)
    case StepOpened(i) => Opened(s, i)
    case StepErrored(i) => TellToClose(s, i)
    case StepClosed(i, code, reason) => Closed(s, i, ClassifyClose(code, reason))
    case StepSilent(i) => AbandonSilent(s, i)
    case StepTimerFired(timer) => TimerFired(s, timer)
    case StepForeground(isStale) => Foreground(s, isStale)
    case StepCleanup => Cleanup(s)
  }

  ghost predicate IsRun(states: seq<State>, steps: seq<Step>) {
    |states| == |steps| + 1 && states[0] == INITIAL &&
    forall n {:trigger steps[n]} :: 0 <= n < |steps| ==>
      Enabled(states[n], steps[n]) && states[n+1] == Next(states[n], steps[n])
  }

  // ---------------------------------------------------------------------
  // Invariants
  // ---------------------------------------------------------------------

  /** Only the current socket, always the last created, may be neither closed nor told to close. */
  predicate SocketsOk(s: State) {
    (s.socket.Some? ==> s.socket.value == |s.sockets| - 1 && !s.sockets[s.socket.value].isClosed) &&
    (forall i :: 0 <= i < |s.sockets| ==> s.socket == Some(i) || s.sockets[i].isTold || s.sockets[i].isClosed) &&
    (s.cancelled ==> s.socket == None)
  }

  /** At most one timer is armed, it is the one the closure knows, and none outlives a stop. */
  predicate TimersOk(s: State) {
    s.armed.Keys == (if s.reconnectTimer == None then {} else {s.reconnectTimer.value}) &&
    (s.reconnectTimer.Some? ==>
      s.reconnectTimer.value < s.timersCreated &&
      s.pendingMinDelayMs <= s.armed[s.reconnectTimer.value] &&
      (s.armed[s.reconnectTimer.value] <= RECONNECT_MAX_MS ||
       s.armed[s.reconnectTimer.value] == s.pendingMinDelayMs)) &&
    (s.isStopped || s.cancelled ==> s.reconnectTimer == None)
  }

  /** Every generation is either still connecting or made at most one socket, in order. */
  predicate GenerationsOk(s: State) {
    (forall g :: g in s.connects ==> g <= s.connectGeneration) &&
    (forall i :: 0 <= i < |s.sockets| ==>
      s.sockets[i].generation <= s.connectGeneration && s.sockets[i].generation !in s.connects) &&
    (forall i, j :: 0 <= i < j < |s.sockets| ==> s.sockets[i].generation < s.sockets[j].generation)
  }

  function Flag(b: bool): nat { if b then 1 else 0 }

  predicate CurrentIsOpened(s: State) {
    s.socket.Some? && s.socket.value < |s.sockets| && s.sockets[s.socket.value].isOpened
  }

  /**
   * The refresh budget of the current interval: every refresh is paid for by a
   * recorded failure, the one that may still be pending, an expiry that found
   * a refresh already done, or a close that arrived after stopping.
   */
  predicate BudgetOk(s: State) {
    (s.authRecoveryFailures >= MAX_AUTH_RECOVERY_FAILURES ==> s.isStopped) &&
    (s.hasGivenUp ==> s.isStopped) &&
    s.stoppedRefreshes <= s.refreshStarts <= MAX_AUTH_RECOVERY_FAILURES + s.expiredAfterRefresh + s.stoppedRefreshes &&
    s.expiredAfterRefresh <= 1 && s.stoppedRefreshes <= 1 &&
    (s.expiredAfterRefresh == 1 ==> !CurrentIsOpened(s)) &&
    (s.stoppedRefreshes == 1 ==> s.isStopped && s.socket == None)
  }

  predicate RefreshesOk(s: State) {
    BudgetOk(s) &&
    s.refreshStarts <= s.authRecoveryFailures + Flag(s.hasRefreshedAuth) + s.expiredAfterRefresh
  }

  predicate Inv(s: State) {
    SocketsOk(s) && TimersOk(s) && GenerationsOk(s) && RefreshesOk(s)
  }

  lemma ScheduleKeepsInv(s: State, minDelayMs: nat)
    requires Inv(s)
    ensures Inv(ReconnectScheduled(s, minDelayMs))
  {
    BackoffIsBoundedAndMonotone(s.attempt, s.attempt, minDelayMs);
  }

  lemma StopKeepsInv(s: State)
    requires Inv(s)
    ensures Inv(Stopped(s)) && Inv(GivenUp(s))
  {
  }

  lemma CloseSocketKeepsInv(s: State)
    requires Inv(s)
    ensures Inv(SocketClosed(s)) && SocketClosed(s).socket == None
  {
  }

  lemma ConnectKeepsInv(s: State)
    requires Inv(s)
    ensures Inv(Connecting(s))
  {
  }

  lemma RecordFailureLeavesOthers(s: State)
    ensures var r := FailureRecorded(s);
      r == s.(isStopped := r.isStopped, hasGivenUp := r.hasGivenUp, authRecoveryFailures := s.authRecoveryFailures + 1,
              reconnectTimer := r.reconnectTimer, armed := r.armed, timersCreated := r.timersCreated,
              pendingMinDelayMs := r.pendingMinDelayMs, attempt := r.attempt) &&
      r.isStopped == (s.isStopped || s.authRecoveryFailures + 1 >= MAX_AUTH_RECOVERY_FAILURES) &&
      (r.hasGivenUp ==> r.isStopped || s.hasGivenUp)
  {
  }

  lemma RecordFailureKeepsTimers(s: State)
    requires TimersOk(s)
    ensures TimersOk(FailureRecorded(s))
  {
    BackoffIsBoundedAndMonotone(s.attempt, s.attempt, 0);
  }

  /** A failure is recorded: either the refresh just thrown or the rejected token pays for it. */
  lemma RecordFailureKeepsInv(s: State)
    requires SocketsOk(s) && TimersOk(s) && GenerationsOk(s) && BudgetOk(s)
    requires s.refreshStarts <= s.authRecoveryFailures + 1 + Flag(s.hasRefreshedAuth) + s.expiredAfterRefresh
    ensures Inv(FailureRecorded(s))
  {
    RecordFailureLeavesOthers(s);
    RecordFailureKeepsTimers(s);
  }

  lemma UnauthorizedKeepsInv(s: State, isSessionExpired: bool)
    requires Inv(s)
    requires s.isStopped ==> s.socket == None && s.stoppedRefreshes == 0
    requires isSessionExpired ==> s.socket == None && s.expiredAfterRefresh == 0
    ensures Inv(UnauthorizedHandled(s, isSessionExpired))
  {
    if s.hasRefreshedAuth && !isSessionExpired {
      RecordFailureKeepsInv(s);
    }
  }

  lemma ActionKeepsInv(s: State, action: CloseAction)
    requires Inv(s)
    requires s.isStopped ==> s.socket == None && s.stoppedRefreshes == 0
    requires action == RefreshAuth(true) ==> s.socket == None && s.expiredAfterRefresh == 0
    ensures Inv(ActionHandled(s, action))
  {
    match action
    case RefreshAuth(isSessionExpired) => UnauthorizedKeepsInv(s, isSessionExpired);
    case Remint => ScheduleKeepsInv(s, 0);
    case StopAccess => StopKeepsInv(s);
    case StopDisabled => StopKeepsInv(s);
    case Backoff(minDelayMs) => ScheduleKeepsInv(s, minDelayMs);
  }

  lemma RefreshSettledKeepsInv(s: State, outcome: RefreshOutcome)
    requires Inv(s) && s.refreshing > 0
    ensures Inv(RefreshSettled(s, outcome))
  {
    var t := s.(refreshing := s.refreshing - 1);
    assert Inv(t);
    match outcome
    case Thrown => RecordFailureKeepsInv(t.(hasRefreshedAuth := false));
    case SessionEnded => StopKeepsInv(t);
    case Refreshed => ScheduleKeepsInv(t, 0);
  }

  lemma MintFailedKeepsInv(s: State, generation: nat, error: TicketError)
    requires Inv(s)
    ensures Inv(MintFailed(s, generation, error))
  {
    var t := s.(connects := s.connects - {generation});
    assert Inv(t);
    if !IsSuperseded(s, generation) {
      ActionKeepsInv(t, ClassifyTicketError(error));
    }
  }

  lemma MintSucceededKeepsInv(s: State, generation: nat)
    requires Inv(s) && generation in s.connects
    ensures Inv(MintSucceeded(s, generation))
  {
    var t := s.(connects := s.connects - {generation});
    assert Inv(t);
    if !IsSuperseded(s, generation) {
      CloseSocketKeepsInv(t);
      GenerationIsFresh(t, generation);
      NewSocketKeepsInv(SocketClosed(t), generation);
    }
  }

  lemma GenerationIsFresh(s: State, generation: nat)
    ensures var closed := SocketClosed(s);
      closed.connects == s.connects && closed.connectGeneration == s.connectGeneration &&
      closed.cancelled == s.cancelled && closed.isStopped == s.isStopped && |closed.sockets| == |s.sockets| &&
      forall i :: 0 <= i < |s.sockets| ==> closed.sockets[i].generation == s.sockets[i].generation
  {
  }

  lemma NewSocketKeepsInv(s: State, generation: nat)
    requires Inv(s) && s.socket == None && !s.cancelled && !s.isStopped
    requires generation == s.connectGeneration && generation !in s.connects
    requires forall i :: 0 <= i < |s.sockets| ==> s.sockets[i].generation < generation
    ensures Inv(s.(socket := Some(|s.sockets|),
                   sockets := s.sockets + [Socket(generation, false, false, false)]))
  {
  }

  lemma ClosedKeepsInv(s: State, i: nat, action: CloseAction)
    requires Inv(s) && i < |s.sockets| && !s.sockets[i].isClosed
    requires action == RefreshAuth(true) ==> s.sockets[i].isOpened
    ensures Inv(Closed(s, i, action))
  {
    var t := s.(sockets := s.sockets[i := s.sockets[i].(isClosed := true)]);
    if s.socket == Some(i) {
      assert Inv(t.(socket := None));
      ActionKeepsInv(t.(socket := None), action);
    }
  }

  lemma ForegroundKeepsInv(s: State, isStale: bool)
    requires Inv(s)
    ensures Inv(Foreground(s, isStale))
  {
    if s.hasGivenUp {
      assert Inv(Afresh(s));
      ConnectKeepsInv(Afresh(s));
    } else {
      var cleared := TimersCleared(s).(attempt := 0);
      assert Inv(cleared);
      ConnectKeepsInv(cleared);
    }
  }

  lemma TimerKeepsInv(s: State, timer: nat)
    requires Inv(s) && timer in s.armed
    ensures Inv(TimerFired(s, timer))
  {
    var fired := s.(reconnectTimer := None, armed := s.armed - {timer});
    assert Inv(fired);
    ConnectKeepsInv(fired);
  }

  lemma OpenedKeepsInv(s: State, i: nat)
    requires Inv(s) && Enabled(s, StepOpened(i))
    ensures Inv(Opened(s, i))
  {
    assert s.socket == Some(i);
  }

  lemma TokensReadKeepsInv(s: State, generation: nat, hasJwt: bool)
    requires Inv(s) && generation in s.connects
    ensures Inv(TokensRead(s, generation, hasJwt))
  {
  }

  lemma TellingKeepsInv(s: State, i: nat)
    requires Inv(s)
    ensures Inv(TellToClose(s, i))
  {
  }

  lemma ClearingKeepsInv(s: State)
    requires Inv(s)
    ensures Inv(TimersCleared(s)) && TimersCleared(s).reconnectTimer == None
  {
  }

  lemma CancellingKeepsInv(s: State)
    requires Inv(s) && s.socket == None && s.reconnectTimer == None
    ensures Inv(s.(cancelled := true))
  {
  }

  lemma CleanupKeepsInv(s: State)
    requires Inv(s)
    ensures Inv(Cleanup(s))
  {
    ClearingKeepsInv(s);
    CloseSocketKeepsInv(TimersCleared(s));
    CancellingKeepsInv(SocketClosed(TimersCleared(s)));
  }

  lemma SilentKeepsInv(s: State, i: nat)
    requires Inv(s)
    ensures Inv(AbandonSilent(s, i))
  {
    CloseSocketKeepsInv(s);
    ScheduleKeepsInv(SocketClosed(s), 0);
  }

  lemma StepKeepsInv(s: State, step: Step)
    requires Inv(s) && Enabled(s, step)
    ensures Inv(Next(s, step))
  {
    match step
    case StepTokensRead(g, hasJwt) => TokensReadKeepsInv(s, g, hasJwt);
    case StepMintFailed(g, error) => MintFailedKeepsInv(s, g, error);
    case StepMintSucceeded(g) => MintSucceededKeepsInv(s, g);
    case StepRefreshSettled(outcome) => RefreshSettledKeepsInv(s, outcome);
    case StepOpened(i) => OpenedKeepsInv(s, i);
    case StepErrored(i) => TellingKeepsInv(s, i);
    case StepClosed(i, code, reason) => ClosedKeepsInv(s, i, ClassifyClose(code, reason));
    case StepSilent(i) => SilentKeepsInv(s, i);
    case StepTimerFired(timer) => TimerKeepsInv(s, timer);
    case StepForeground(isStale) => ForegroundKeepsInv(s, isStale);
    case StepCleanup => CleanupKeepsInv(s);
  }

  lemma {:induction false} EveryRunKeepsInv(states: seq<State>, steps: seq<Step>, n: nat)
    requires IsRun(states, steps) && n < |states|
    ensures Inv(states[n])
  {
    if n > 0 {
      EveryRunKeepsInv(states, steps, n - 1);
      StepKeepsInv(states[n-1], steps[n-1]);
    }
  }

  // ---------------------------------------------------------------------
  // What every interleaving guarantees
  // ---------------------------------------------------------------------

  /**
   * At any point of any interleaving: every socket but the current one is
   * closed or was told to close, at most one reconnect timer is armed and its
   * delay is within bounds, and after cleanup nothing is left behind.
   */
  lemma NothingLeaks(states: seq<State>, steps: seq<Step>, n: nat, i: nat, j: nat)
    requires IsRun(states, steps) && n < |states|
    ensures var s := states[n];
      (i < |s.sockets| && j < |s.sockets| && i != j ==>
        !IsLive(s.sockets[i]) || !IsLive(s.sockets[j])) &&
      (i < |s.sockets| && IsLive(s.sockets[i]) ==> s.socket == Some(i)) &&
      |s.armed| <= 1 &&
      (s.cancelled ==> s.armed == map[] && forall k :: 0 <= k < |s.sockets| ==> !IsLive(s.sockets[k]))
  {
    EveryRunKeepsInv(states, steps, n);
    var s := states[n];
    assert |s.armed| == |s.armed.Keys|;
    assert s.cancelled ==> s.armed.Keys == {};
  }

  predicate IsLive(socket: Socket) {
    !socket.isTold && !socket.isClosed
  }

  /**
   * A socket is only ever created by the newest connect, while neither
   * cancelled nor stopped, and no generation creates two.
   */
  lemma SocketsComeFromTheNewestConnect(states: seq<State>, steps: seq<Step>, n: nat)
    requires IsRun(states, steps) && n < |steps|
    ensures var before, after := states[n], states[n+1];
      |before.sockets| <= |after.sockets| <= |before.sockets| + 1 &&
      (|after.sockets| > |before.sockets| ==>
        !before.cancelled && !before.isStopped &&
        steps[n] == StepMintSucceeded(before.connectGeneration) &&
        after.socket == Some(|before.sockets|) &&
        forall i :: 0 <= i < |before.sockets| ==>
          before.sockets[i].generation < after.sockets[|before.sockets|].generation)
  {
    EveryRunKeepsInv(states, steps, n);
    var s, step := states[n], steps[n];
    if step.StepMintSucceeded? {
      GenerationIsFresh(s.(connects := s.connects - {step.generation}), step.generation);
    } else {
      OtherStepsCreateNoSocket(s, step);
    }
  }

  lemma OtherStepsCreateNoSocket(s: State, step: Step)
    requires Enabled(s, step) && !step.StepMintSucceeded?
    ensures |Next(s, step).sockets| == |s.sockets|
  {
    match step
    case StepMintFailed(g, error) => MintFailureCreatesNoSocket(s, g, error);
    case StepClosed(i, code, reason) => CloseCreatesNoSocket(s, i, ClassifyClose(code, reason));
    case StepRefreshSettled(outcome) => SettlingCreatesNoSocket(s, outcome);
    case StepSilent(i) => SilenceCreatesNoSocket(s, i);
    case StepForeground(isStale) => ForegroundCreatesNoSocket(s, isStale);
    case _ =>
  }

  lemma MintFailureCreatesNoSocket(s: State, generation: nat, error: TicketError)
    ensures MintFailed(s, generation, error).sockets == s.sockets
  {
    ActionCreatesNoSocket(s.(connects := s.connects - {generation}), ClassifyTicketError(error));
  }

  lemma CloseCreatesNoSocket(s: State, i: nat, action: CloseAction)
    requires i < |s.sockets|
    ensures |Closed(s, i, action).sockets| == |s.sockets|
  {
    ActionCreatesNoSocket(s.(sockets := s.sockets[i := s.sockets[i].(isClosed := true)], socket := None), action);
  }

  lemma SilenceCreatesNoSocket(s: State, i: nat)
    ensures |AbandonSilent(s, i).sockets| == |s.sockets|
  {
  }

  lemma ForegroundCreatesNoSocket(s: State, isStale: bool)
    ensures Foreground(s, isStale).sockets == s.sockets
  {
  }

  lemma UnauthorizedCreatesNoSocket(s: State, isSessionExpired: bool)
    ensures UnauthorizedHandled(s, isSessionExpired).sockets == s.sockets
  {
  }

  lemma ActionCreatesNoSocket(s: State, action: CloseAction)
    ensures ActionHandled(s, action).sockets == s.sockets
  {
    if action.RefreshAuth? {
      UnauthorizedCreatesNoSocket(s, action.isSessionExpired);
    }
  }

  lemma SettlingCreatesNoSocket(s: State, outcome: RefreshOutcome)
    requires s.refreshing > 0
    ensures RefreshSettled(s, outcome).sockets == s.sockets
  {
  }

  /** While a rate-limit wait is armed, nothing but its own timer starts a connect. */
  lemma RateLimitWaitIsHonoured(states: seq<State>, steps: seq<Step>, n: nat)
    requires IsRun(states, steps) && n < |steps|
    requires states[n].reconnectTimer.Some? && states[n].pendingMinDelayMs > 0
    ensures states[n+1].connectGeneration > states[n].connectGeneration ==>
      steps[n] == StepTimerFired(states[n].reconnectTimer.value)
  {
    EveryRunKeepsInv(states, steps, n);
    match steps[n]
    case StepMintFailed(g, error) =>
      ActionStartsNoConnect(states[n].(connects := states[n].connects - {g}), ClassifyTicketError(error));
    case StepClosed(i, code, reason) =>
      var t := states[n].(sockets := states[n].sockets[i := states[n].sockets[i].(isClosed := true)], socket := None);
      ActionStartsNoConnect(t, ClassifyClose(code, reason));
    case _ =>
  }

  lemma UnauthorizedStartsNoConnect(s: State, isSessionExpired: bool)
    ensures UnauthorizedHandled(s, isSessionExpired).connectGeneration == s.connectGeneration
  {
  }

  lemma ActionStartsNoConnect(s: State, action: CloseAction)
    ensures ActionHandled(s, action).connectGeneration == s.connectGeneration
  {
    if action.RefreshAuth? {
      UnauthorizedStartsNoConnect(s, action.isSessionExpired);
    }
  }

  /**
   * Between one socket open and the next, at most five refreshes start, plus
   * one if an expiry found a refresh already done, plus one if a close asked
   * for a refresh after the machine had stopped; never more than seven.
   */
  lemma RefreshesAreBounded(states: seq<State>, steps: seq<Step>, n: nat)
    requires IsRun(states, steps) && n < |states|
    ensures var s := states[n];
      s.refreshStarts <= MAX_AUTH_RECOVERY_FAILURES + s.expiredAfterRefresh + s.stoppedRefreshes <=
        MAX_AUTH_RECOVERY_FAILURES + 2
  {
    EveryRunKeepsInv(states, steps, n);
  }

  /** The close events that stay within the intended budget of five. */
  predicate IsOrderlyClose(s: State, step: Step) {
    step.StepClosed? && s.socket == Some(step.i) && ClassifyClose(step.code, step.reason).RefreshAuth? ==>
      !s.isStopped && (ClassifyClose(step.code, step.reason).isSessionExpired ==> !s.hasRefreshedAuth)
  }

  /** With no close after stopping and no expiry after a refresh, the intended bound of five holds throughout. */
  lemma {:induction false} OrderlyRunsStayWithinFive(states: seq<State>, steps: seq<Step>, n: nat)
    requires IsRun(states, steps) && n < |states|
    requires forall k :: 0 <= k < n ==> IsOrderlyClose(states[k], steps[k])
    ensures states[n].expiredAfterRefresh == 0 && states[n].stoppedRefreshes == 0
    ensures states[n].refreshStarts <= MAX_AUTH_RECOVERY_FAILURES
  {
    EveryRunKeepsInv(states, steps, n);
    if n > 0 {
      OrderlyRunsStayWithinFive(states, steps, n - 1);
      assert IsOrderlyClose(states[n-1], steps[n-1]);
      EveryRunKeepsInv(states, steps, n - 1);
      OrderlyStepSpendsNothingExtra(states[n-1], steps[n-1]);
    }
  }

  lemma OrderlyStepSpendsNothingExtra(s: State, step: Step)
    requires Enabled(s, step) && IsOrderlyClose(s, step)
    requires s.expiredAfterRefresh == 0 && s.stoppedRefreshes == 0
    ensures Next(s, step).expiredAfterRefresh == 0 && Next(s, step).stoppedRefreshes == 0
  {
    match step
    case StepMintFailed(g, error) => MintFailureSpendsNothingExtra(s, g, error);
    case StepClosed(i, code, reason) => CloseSpendsNothingExtra(s, i, code, reason);
    case StepSilent(i) => SilenceSpendsNothingExtra(s, i);
    case StepRefreshSettled(outcome) => SettlingSpendsNothingExtra(s, outcome);
    case StepForeground(isStale) => ForegroundSpendsNothingExtra(s, isStale);
    case _ =>
  }

  lemma SilenceSpendsNothingExtra(s: State, i: nat)
    ensures AbandonSilent(s, i).expiredAfterRefresh == s.expiredAfterRefresh
    ensures AbandonSilent(s, i).stoppedRefreshes == s.stoppedRefreshes
  {
  }

  lemma CloseSpendsNothingExtra(s: State, i: nat, code: Option<int>, reason: Option<string>)
    requires i < |s.sockets| && IsOrderlyClose(s, StepClosed(i, code, reason))
    ensures Closed(s, i, ClassifyClose(code, reason)).expiredAfterRefresh == s.expiredAfterRefresh
    ensures Closed(s, i, ClassifyClose(code, reason)).stoppedRefreshes == s.stoppedRefreshes
  {
    if s.socket == Some(i) {
      var t := s.(sockets := s.sockets[i := s.sockets[i].(isClosed := true)], socket := None);
      OrderlyActionSpendsNothingExtra(t, ClassifyClose(code, reason));
    }
  }

  lemma MintFailureSpendsNothingExtra(s: State, generation: nat, error: TicketError)
    ensures MintFailed(s, generation, error).expiredAfterRefresh == s.expiredAfterRefresh
    ensures MintFailed(s, generation, error).stoppedRefreshes == s.stoppedRefreshes
  {
    if !IsSuperseded(s, generation) {
      OrderlyActionSpendsNothingExtra(s.(connects := s.connects - {generation}), ClassifyTicketError(error));
    }
  }

  lemma SettlingSpendsNothingExtra(s: State, outcome: RefreshOutcome)
    requires s.refreshing > 0
    ensures RefreshSettled(s, outcome).expiredAfterRefresh == s.expiredAfterRefresh
    ensures RefreshSettled(s, outcome).stoppedRefreshes == s.stoppedRefreshes
  {
  }

  lemma ForegroundSpendsNothingExtra(s: State, isStale: bool)
    ensures Foreground(s, isStale).expiredAfterRefresh <= s.expiredAfterRefresh
    ensures Foreground(s, isStale).stoppedRefreshes <= s.stoppedRefreshes
  {
  }

  lemma OrderlyActionSpendsNothingExtra(s: State, action: CloseAction)
    requires action.RefreshAuth? ==> !s.isStopped && (action.isSessionExpired ==> !s.hasRefreshedAuth)
    ensures ActionHandled(s, action).expiredAfterRefresh == s.expiredAfterRefresh
    ensures ActionHandled(s, action).stoppedRefreshes == s.stoppedRefreshes
  {
  }

  // ---------------------------------------------------------------------
  // Seven is reached
  // ---------------------------------------------------------------------

  ghost predicate Plays(s: State, steps: seq<Step>, t: State)
    decreases |steps|
  {
    if steps == [] then s == t
    else Enabled(s, steps[0]) && Plays(Next(s, steps[0]), steps[1..], t)
  }

  ghost predicate Leads(s: State, t: State) {
    exists steps :: Plays(s, steps, t)
  }

  lemma {:induction false} PlaysOn(s: State, a: seq<Step>, m: State, b: seq<Step>, t: State)
    requires Plays(s, a, m) && Plays(m, b, t)
    ensures Plays(s, a + b, t)
    decreases |a|
  {
    if a == [] {
      assert a + b == b;
    } else {
      PlaysOn(Next(s, a[0]), a[1..], m, b, t);
      assert (a + b)[1..] == a[1..] + b;
    }
  }

  lemma LeadsOn(s: State, m: State, t: State)
    requires Leads(s, m) && Leads(m, t)
    ensures Leads(s, t)
  {
    var a :| Plays(s, a, m);
    var b :| Plays(m, b, t);
    PlaysOn(s, a, m, b, t);
  }

  lemma OneStep(s: State, step: Step)
    requires Enabled(s, step)
    ensures Leads(s, Next(s, step))
  {
    assert Plays(Next(s, step), [step][1..], Next(s, step));
    assert Plays(s, [step], Next(s, step));
  }

  /** Backing off with no socket and no refresh pending; `spent` refreshes so far, `expired` of them by late expiries. */
  predicate IsBackingOff(s: State, failures: nat, spent: nat, expired: nat) {
    !s.cancelled && !s.isStopped && !s.hasGivenUp && !s.hasRefreshedAuth &&
    s.authRecoveryFailures == failures && s.refreshStarts == spent && s.refreshing == 0 &&
    s.expiredAfterRefresh == expired && s.stoppedRefreshes == 0 &&
    s.socket == None && s.reconnectTimer.Some? && s.reconnectTimer.value in s.armed
  }

  /** The timer fires, the mint is rejected, a refresh starts. */
  lemma RejectedMint(s: State, failures: nat, spent: nat, expired: nat) returns (t: State)
    requires IsBackingOff(s, failures, spent, expired)
    ensures Leads(s, t)
    ensures t.hasRefreshedAuth && t.refreshing == 1 && t.refreshStarts == spent + 1
    ensures t.reconnectTimer == None && t.socket == None && t.authRecoveryFailures == failures
    ensures !t.cancelled && !t.isStopped && !t.hasGivenUp
    ensures t.expiredAfterRefresh == expired && t.stoppedRefreshes == 0
  {
    var fire := StepTimerFired(s.reconnectTimer.value);
    var s1 := Next(s, fire);
    OneStep(s, fire);
    var s2 := Next(s1, StepTokensRead(s1.connectGeneration, true));
    OneStep(s1, StepTokensRead(s1.connectGeneration, true));
    t := Next(s2, StepMintFailed(s1.connectGeneration, Unauthorized));
    OneStep(s2, StepMintFailed(s1.connectGeneration, Unauthorized));
    LeadsOn(s, s1, s2);
    LeadsOn(s, s2, t);
  }

  lemma ThrownRefresh(s: State, failures: nat, spent: nat, expired: nat) returns (t: State)
    requires IsBackingOff(s, failures, spent, expired) && failures + 1 < MAX_AUTH_RECOVERY_FAILURES
    ensures Leads(s, t) && IsBackingOff(t, failures + 1, spent + 1, expired)
  {
    var m := RejectedMint(s, failures, spent, expired);
    t := Next(m, StepRefreshSettled(Thrown));
    OneStep(m, StepRefreshSettled(Thrown));
    LeadsOn(s, m, t);
  }

  /** The very first ticket is refused and the refresh throws: one refresh, one failure. */
  lemma FirstRefreshThrows() returns (t: State)
    ensures Leads(INITIAL, t) && IsBackingOff(t, 1, 1, 0)
  {
    var s1 := Next(INITIAL, StepTokensRead(1, true));
    OneStep(INITIAL, StepTokensRead(1, true));
    var s2 := Next(s1, StepMintFailed(1, Unauthorized));
    OneStep(s1, StepMintFailed(1, Unauthorized));
    t := Next(s2, StepRefreshSettled(Thrown));
    OneStep(s2, StepRefreshSettled(Thrown));
    LeadsOn(INITIAL, s1, s2);
    LeadsOn(INITIAL, s2, t);
  }

  lemma FirstSocketOpens() returns (t: State)
    ensures Leads(INITIAL, t)
    ensures t == MOUNTED.(connectGeneration := 1, socket := Some(0), sockets := [Socket(1, true, false, false)])
  {
    var s1 := Next(INITIAL, StepTokensRead(1, true));
    OneStep(INITIAL, StepTokensRead(1, true));
    var s2 := Next(s1, StepMintSucceeded(1));
    OneStep(s1, StepMintSucceeded(1));
    t := Next(s2, StepOpened(0));
    OneStep(s2, StepOpened(0));
    LeadsOn(INITIAL, s1, s2);
    LeadsOn(INITIAL, s2, t);
    assert t.connects == map[];
  }

  /** A foreground finds the open socket silent and mints a second ticket. */
  lemma SilentSocketReconnects(s: State) returns (t: State)
    requires s == MOUNTED.(connectGeneration := 1, socket := Some(0), sockets := [Socket(1, true, false, false)])
    ensures Leads(s, t) && t == s.(connectGeneration := 2, connects := map[2 := MintingTicket])
  {
    var s1 := Next(s, StepForeground(true));
    OneStep(s, StepForeground(true));
    t := Next(s1, StepTokensRead(2, true));
    OneStep(s1, StepTokensRead(2, true));
    LeadsOn(s, s1, t);
  }

  lemma SilentSocketIsRefreshed(s: State) returns (t: State)
    requires s == MOUNTED.(connectGeneration := 1, socket := Some(0), sockets := [Socket(1, true, false, false)])
    ensures Leads(s, t)
    ensures t.socket == Some(0) && t.sockets == s.sockets && t.hasRefreshedAuth && t.refreshStarts == 1
    ensures !t.cancelled && !t.isStopped && !t.hasGivenUp && t.authRecoveryFailures == 0 && t.refreshing == 0
    ensures t.reconnectTimer == Some(0) && 0 in t.armed && t.expiredAfterRefresh == 0 && t.stoppedRefreshes == 0
  {
    var minting := SilentSocketReconnects(s);
    var refused := RefusedTicketRefreshes(s, minting);
    t := LandedRefresh(refused);
    LeadsOn(s, minting, refused);
    LeadsOn(s, refused, t);
  }

  /** A refresh that lands while nothing else goes on arms the reconnect timer. */
  lemma LandedRefresh(s: State) returns (t: State)
    requires s.refreshing == 1 && !s.cancelled && !s.isStopped && s.reconnectTimer == None
    ensures Leads(s, t) && t == ReconnectScheduled(s.(refreshing := 0), 0)
  {
    t := Next(s, StepRefreshSettled(Refreshed));
    OneStep(s, StepRefreshSettled(Refreshed));
  }

  lemma RefusedTicketRefreshes(s: State, minting: State) returns (t: State)
    requires s == MOUNTED.(connectGeneration := 1, socket := Some(0), sockets := [Socket(1, true, false, false)])
    requires minting == s.(connectGeneration := 2, connects := map[2 := MintingTicket])
    ensures Leads(minting, t)
    ensures t == minting.(connects := map[], hasRefreshedAuth := true, refreshing := 1, refreshStarts := 1)
  {
    t := Next(minting, StepMintFailed(2, Unauthorized));
    OneStep(minting, StepMintFailed(2, Unauthorized));
    assert minting.connects - {2} == map[];
  }

  /** An open but silent socket, a refresh that lands, then the socket's own expiry: two refreshes, one failure. */
  lemma ExpiryAfterRefresh() returns (t: State)
    ensures Leads(INITIAL, t) && IsBackingOff(t, 1, 2, 1)
  {
    var open := FirstSocketOpens();
    var refreshed := SilentSocketIsRefreshed(open);
    var expiry := StepClosed(0, Some(4401), Some("session_expired"));
    var expired := Next(refreshed, expiry);
    OneStep(refreshed, expiry);
    t := Next(expired, StepRefreshSettled(Thrown));
    OneStep(expired, StepRefreshSettled(Thrown));
    LeadsOn(INITIAL, open, refreshed);
    LeadsOn(INITIAL, refreshed, expired);
    LeadsOn(INITIAL, expired, t);
  }

  /** A connecting socket is rejected after the last failure has stopped the machine: one refresh more. */
  lemma RejectionAfterGivingUp(s: State, spent: nat, expired: nat) returns (t: State)
    requires IsBackingOff(s, 4, spent, expired) && Inv(s)
    ensures Leads(s, t) && t.refreshStarts == spent + 2 && t.expiredAfterRefresh == expired && t.stoppedRefreshes == 1
  {
    var m := RejectedMint(s, 4, spent, expired);
    var m1 := Next(m, StepForeground(true));
    OneStep(m, StepForeground(true));
    var g := m1.connectGeneration;
    var m2 := Next(m1, StepTokensRead(g, true));
    OneStep(m1, StepTokensRead(g, true));
    var m3 := Next(m2, StepMintSucceeded(g));
    OneStep(m2, StepMintSucceeded(g));
    var m4 := Next(m3, StepRefreshSettled(Thrown));
    OneStep(m3, StepRefreshSettled(Thrown));
    var rejection := StepClosed(m3.socket.value, Some(4401), None);
    t := Next(m4, rejection);
    OneStep(m4, rejection);
    LeadsOn(s, m, m1);
    LeadsOn(s, m1, m2);
    LeadsOn(s, m2, m3);
    LeadsOn(s, m3, m4);
    LeadsOn(s, m4, t);
  }

  lemma {:induction false} PlayedStatesSatisfyInv(s: State, steps: seq<Step>, t: State)
    requires Inv(s) && Plays(s, steps, t)
    ensures Inv(t)
    decreases |steps|
  {
    if steps != [] {
      StepKeepsInv(s, steps[0]);
      PlayedStatesSatisfyInv(Next(s, steps[0]), steps[1..], t);
    }
  }

  /** Four failures in, with a refresh more than failures if an expiry came late. */
  lemma FourFailures(expired: nat) returns (t: State)
    requires expired <= 1
    ensures Leads(INITIAL, t) && IsBackingOff(t, 4, 4 + expired, expired) && Inv(t)
  {
    var a: State;
    if expired == 1 {
      a := ExpiryAfterRefresh();
    } else {
      a := FirstRefreshThrows();
    }
    var b := ThrownRefresh(a, 1, 1 + expired, expired);
    var c := ThrownRefresh(b, 2, 2 + expired, expired);
    t := ThrownRefresh(c, 3, 3 + expired, expired);
    LeadsOn(INITIAL, a, b);
    LeadsOn(INITIAL, b, c);
    LeadsOn(INITIAL, c, t);
    var steps :| Plays(INITIAL, steps, t);
    PlayedStatesSatisfyInv(INITIAL, steps, t);
  }

  /**
   * The bound is attained in every combination: with or without a late expiry,
   * with or without a close after stopping, an interleaving from mount starts
   * five refreshes plus one for each of the two that happened.
   */
  lemma RefreshBoundIsTight(expired: nat, stopped: nat)
    requires expired <= 1 && stopped <= 1
    ensures exists t: State ::
      Leads(INITIAL, t) && t.expiredAfterRefresh == expired && t.stoppedRefreshes == stopped &&
      t.refreshStarts == MAX_AUTH_RECOVERY_FAILURES + expired + stopped
  {
    var s := FourFailures(expired);
    var t: State;
    if stopped == 1 {
      t := RejectionAfterGivingUp(s, 4 + expired, expired);
    } else {
      t := RejectedMint(s, 4, 4 + expired, expired);
    }
    LeadsOn(INITIAL, s, t);
  }

  /** In particular seven is reached. */
  lemma SevenRefreshesHappen()
    ensures exists t: State :: Leads(INITIAL, t) && t.refreshStarts == MAX_AUTH_RECOVERY_FAILURES + 2
  {
    RefreshBoundIsTight(1, 1);
  }
}
