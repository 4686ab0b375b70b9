/**
 * What the events socket does about each close code, each ticket error and
 * each outcome of a refresh, over every interleaving, with codes and delays
 * written out (farcaster-audio/hooks/useMessagesEvents.ts).
 */
module EventReactions {
  import opened Options
  import opened MessagesEvents

  // ---------------------------------------------------------------------
  // What is looked at
  // ---------------------------------------------------------------------

  predicate IsRunning(s: State) {
    !s.cancelled && !s.isStopped
  }

  /** The reconnect timer is armed and waits at least this long. */
  predicate WaitsAtLeast(s: State, ms: nat) {
    s.reconnectTimer.Some? && s.reconnectTimer.value in s.armed && s.armed[s.reconnectTimer.value] >= ms
  }

  predicate WaitsExactly(s: State, ms: nat) {
    WaitsAtLeast(s, ms) && s.armed[s.reconnectTimer.value] == ms
  }

  /** One second, doubled up to half a minute. */
  function PlainDelay(attempt: nat): nat {
    if attempt == 0 then 1000
    else if attempt == 1 then 2000
    else if attempt == 2 then 4000
    else if attempt == 3 then 8000
    else if attempt == 4 then 16_000
    else 30_000
  }

  /** A retry is pending: the one that was, or a new one after the plain backoff, unless no longer running. */
  predicate RetriesPlainly(s: State, t: State) {
    if !IsRunning(s) || s.reconnectTimer.Some? then
      t.reconnectTimer == s.reconnectTimer && t.armed == s.armed && t.attempt == s.attempt
    else
      WaitsExactly(t, PlainDelay(s.attempt)) && t.pendingMinDelayMs == 0 && t.attempt == s.attempt + 1
  }

  predicate IsAtRest(s: State) {
    s.isStopped && s.reconnectTimer == None && s.armed == map[]
  }

  /** Neither a refresh nor a failure of one. */
  predicate SameRecovery(s: State, t: State) {
    t.refreshing == s.refreshing && t.hasRefreshedAuth == s.hasRefreshedAuth &&
    t.authRecoveryFailures == s.authRecoveryFailures
  }

  /** A refresh starts, and nothing else happens until it settles. */
  predicate StartsRefresh(s: State, t: State) {
    t.refreshing == s.refreshing + 1 && t.hasRefreshedAuth && t.authRecoveryFailures == s.authRecoveryFailures &&
    t.reconnectTimer == s.reconnectTimer && t.isStopped == s.isStopped
  }

  /** One more failure: the fifth stops the machine for good or until a foreground, an earlier one retries. */
  predicate RecordsFailure(s: State, t: State) {
    t.refreshing <= s.refreshing && t.authRecoveryFailures == s.authRecoveryFailures + 1 &&
    if s.authRecoveryFailures + 1 >= 5 then IsAtRest(t) && t.hasGivenUp
    else RetriesPlainly(s, t) && t.isStopped == s.isStopped && t.hasGivenUp == s.hasGivenUp
  }

  // ---------------------------------------------------------------------
  // The closure's functions, seen from outside
  // ---------------------------------------------------------------------

  lemma PlainDelays(attempt: nat)
    ensures ComputeReconnectDelay(attempt, 0) == PlainDelay(attempt)
    ensures ComputeReconnectDelay(attempt, 60_000) == 60_000
  {
    BackoffIsBoundedAndMonotone(attempt, attempt, 0);
    BackoffIsBoundedAndMonotone(attempt, attempt, 60_000);
    assert Pow2(0) == 1 && Pow2(1) == 2 * Pow2(0) && Pow2(2) == 2 * Pow2(1);
    assert Pow2(3) == 2 * Pow2(2) && Pow2(4) == 2 * Pow2(3);
  }

  lemma PlainSchedule(s: State)
    ensures RetriesPlainly(s, ReconnectScheduled(s, 0)) && SameRecovery(s, ReconnectScheduled(s, 0))
    ensures ReconnectScheduled(s, 0).isStopped == s.isStopped && ReconnectScheduled(s, 0).hasGivenUp == s.hasGivenUp
  {
    PlainDelays(s.attempt);
  }

  lemma StoppingRests(s: State)
    requires TimersOk(s)
    ensures IsAtRest(Stopped(s)) && SameRecovery(s, Stopped(s))
  {
    assert Stopped(s).armed.Keys == {};
  }

  lemma FailureIsRecorded(s: State)
    requires TimersOk(s)
    ensures RecordsFailure(s, FailureRecorded(s)) && FailureRecorded(s).refreshing == s.refreshing
  {
    var counted := s.(authRecoveryFailures := s.authRecoveryFailures + 1);
    PlainSchedule(counted);
    StoppingRests(counted);
  }

  /** A step of a run is a step from a state that satisfies the invariants. */
  lemma RunStep(states: seq<State>, steps: seq<Step>, n: nat)
    requires IsRun(states, steps) && n < |steps|
    ensures Inv(states[n]) && Enabled(states[n], steps[n]) && states[n+1] == Next(states[n], steps[n])
  {
    EveryRunKeepsInv(states, steps, n);
  }

  /** The state in which the current socket's close is handled. */
  function WithoutSocket(s: State, i: nat): State
    requires i < |s.sockets|
  {
    s.(sockets := s.sockets[i := s.sockets[i].(isClosed := true)], socket := None)
  }

  // ---------------------------------------------------------------------
  // Closes of the current socket
  // ---------------------------------------------------------------------

  /** The current socket of a run's state closes with this code. */
  ghost predicate Closes(states: seq<State>, steps: seq<Step>, n: nat, code: Option<int>) {
    IsRun(states, steps) && n < |steps| && steps[n].StepClosed? && steps[n].code == code &&
    states[n].socket == Some(steps[n].i)
  }

  /**
   * After a 4429 close the machine waits at least a minute, exactly if it is
   * running and no shorter retry was pending already.
   */
  lemma RateLimitedCloseWaits(states: seq<State>, steps: seq<Step>, n: nat)
    requires Closes(states, steps, n, Some(4429))
    ensures var s, t := states[n], states[n+1];
      t.socket == None && SameRecovery(s, t) && !s.cancelled &&
      (WaitsAtLeast(t, 60_000) <==> !s.isStopped && (s.reconnectTimer == None || WaitsAtLeast(s, 60_000))) &&
      (!s.isStopped && s.reconnectTimer == None ==> WaitsExactly(t, 60_000) && t.pendingMinDelayMs == 60_000)
  {
    RunStep(states, steps, n);
    PlainDelays(states[n].attempt);
  }

  /** 4403 and 4404 stop the machine. */
  lemma RefusedCloseStops(states: seq<State>, steps: seq<Step>, n: nat)
    requires Closes(states, steps, n, Some(4403)) || Closes(states, steps, n, Some(4404))
    ensures var s, t := states[n], states[n+1];
      t.socket == None && IsAtRest(t) && SameRecovery(s, t) && t.hasGivenUp == s.hasGivenUp
  {
    RunStep(states, steps, n);
    StoppingRests(WithoutSocket(states[n], steps[n].i));
  }

  /** A rejected ticket is only minted again: no refresh. */
  lemma RejectedTicketIsMintedAgain(states: seq<State>, steps: seq<Step>, n: nat)
    requires Closes(states, steps, n, Some(4401)) && steps[n].reason == Some("ticket_rejected")
    ensures var s, t := states[n], states[n+1];
      t.socket == None && SameRecovery(s, t) && RetriesPlainly(s, t) && t.isStopped == s.isStopped
  {
    RunStep(states, steps, n);
    PlainSchedule(WithoutSocket(states[n], steps[n].i));
  }

  /**
   * Any other 4401 starts a refresh exactly when it reports expiry or none has
   * landed since the last open; otherwise it is one more failure.
   */
  lemma UnauthorizedCloseRefreshesIff(states: seq<State>, steps: seq<Step>, n: nat)
    requires Closes(states, steps, n, Some(4401)) && steps[n].reason != Some("ticket_rejected")
    ensures states[n+1].socket == None
    ensures steps[n].reason == Some("session_expired") || !RefreshedSince(states, steps, n) ==>
      StartsRefresh(states[n], states[n+1])
    ensures !(steps[n].reason == Some("session_expired") || !RefreshedSince(states, steps, n)) ==>
      RecordsFailure(states[n], states[n+1]) && states[n+1].refreshing == states[n].refreshing
  {
    RunStep(states, steps, n);
    FlagIsHistory(states, steps, n);
    var s := WithoutSocket(states[n], steps[n].i);
    assert TimersOk(s);
    FailureIsRecorded(s);
  }

  /** Every other code, none at all included, retries after the plain backoff. */
  lemma OtherCloseBacksOff(states: seq<State>, steps: seq<Step>, n: nat, code: Option<int>)
    requires Closes(states, steps, n, code)
    requires code !in {Some(4401), Some(4403), Some(4404), Some(4429)}
    ensures var s, t := states[n], states[n+1];
      t.socket == None && SameRecovery(s, t) && RetriesPlainly(s, t) && t.isStopped == s.isStopped
  {
    RunStep(states, steps, n);
    PlainSchedule(WithoutSocket(states[n], steps[n].i));
  }

  /** A close of a socket that is no longer current changes nothing but that it is closed. */
  lemma SupersededCloseIsIgnored(states: seq<State>, steps: seq<Step>, n: nat)
    requires IsRun(states, steps) && n < |steps| && steps[n].StepClosed? && states[n].socket != Some(steps[n].i)
    ensures states[n+1] == states[n].(sockets := states[n+1].sockets)
  {
  }

  // ---------------------------------------------------------------------
  // Failed mints
  // ---------------------------------------------------------------------

  /** The newest connect of a running machine fails to mint its ticket. */
  ghost predicate MintFails(states: seq<State>, steps: seq<Step>, n: nat, error: TicketError) {
    IsRun(states, steps) && n < |steps| && IsRunning(states[n]) &&
    steps[n] == StepMintFailed(states[n].connectGeneration, error)
  }

  /** A mint that fails once a newer connect began, or once cancelled or stopped, ends its connect and nothing more. */
  lemma SupersededMintIsIgnored(states: seq<State>, steps: seq<Step>, n: nat)
    requires IsRun(states, steps) && n < |steps| && steps[n].StepMintFailed?
    requires !IsRunning(states[n]) || steps[n].generation != states[n].connectGeneration
    ensures states[n+1] == states[n].(connects := states[n].connects - {steps[n].generation})
  {
  }

  lemma RateLimitedMintWaits(states: seq<State>, steps: seq<Step>, n: nat)
    requires MintFails(states, steps, n, RateLimited)
    ensures var s, t := states[n], states[n+1];
      SameRecovery(s, t) && t.socket == s.socket &&
      (WaitsAtLeast(t, 60_000) <==> s.reconnectTimer == None || WaitsAtLeast(s, 60_000)) &&
      (s.reconnectTimer == None ==> WaitsExactly(t, 60_000) && t.pendingMinDelayMs == 60_000)
  {
    RunStep(states, steps, n);
    PlainDelays(states[n].attempt);
  }

  lemma UnavailableMintStops(states: seq<State>, steps: seq<Step>, n: nat, error: TicketError)
    requires MintFails(states, steps, n, error) && error in {Unavailable, NotFound}
    ensures var s, t := states[n], states[n+1];
      IsAtRest(t) && SameRecovery(s, t) && t.socket == s.socket && t.hasGivenUp == s.hasGivenUp
  {
    RunStep(states, steps, n);
    StoppingRests(states[n].(connects := states[n].connects - {states[n].connectGeneration}));
  }

  lemma UnauthorizedMintRefreshesIff(states: seq<State>, steps: seq<Step>, n: nat)
    requires MintFails(states, steps, n, Unauthorized)
    ensures !RefreshedSince(states, steps, n) ==> StartsRefresh(states[n], states[n+1])
    ensures RefreshedSince(states, steps, n) ==>
      RecordsFailure(states[n], states[n+1]) && states[n+1].refreshing == states[n].refreshing
  {
    RunStep(states, steps, n);
    FlagIsHistory(states, steps, n);
    var s := states[n].(connects := states[n].connects - {states[n].connectGeneration});
    assert TimersOk(s);
    FailureIsRecorded(s);
  }

  lemma OtherMintFailureBacksOff(states: seq<State>, steps: seq<Step>, n: nat, error: TicketError)
    requires MintFails(states, steps, n, error) && error in {OtherCode, Unclassified}
    ensures var s, t := states[n], states[n+1];
      SameRecovery(s, t) && RetriesPlainly(s, t) && t.isStopped == s.isStopped && t.socket == s.socket
  {
    RunStep(states, steps, n);
    PlainSchedule(states[n].(connects := states[n].connects - {states[n].connectGeneration}));
  }

  // ---------------------------------------------------------------------
  // Whether a refresh has landed, read off the events
  // ---------------------------------------------------------------------

  /** An open, a refresh that throws, or a restart after giving up: the next rejection may refresh again. */
  predicate AllowsRefresh(s: State, step: Step) {
    step.StepOpened? || (step.StepRefreshSettled? && step.outcome == Thrown && !s.cancelled) ||
    (step.StepForeground? && s.hasGivenUp)
  }

  predicate RefreshBegins(states: seq<State>, k: nat)
    requires k + 1 < |states|
  {
    states[k+1].refreshing > states[k].refreshing
  }

  /** A refresh was started by step `k`, and no later one before `n` allows another. */
  predicate RefreshStands(states: seq<State>, steps: seq<Step>, k: nat, n: nat)
    requires k < n <= |steps| && |states| == |steps| + 1
  {
    RefreshBegins(states, k) && forall j :: k < j < n ==> !AllowsRefresh(states[j], steps[j])
  }

  ghost predicate RefreshedSince(states: seq<State>, steps: seq<Step>, n: nat)
    requires n <= |steps| && |states| == |steps| + 1
  {
    exists k: nat :: k < n && RefreshStands(states, steps, k, n)
  }

  /** A started refresh raises the flag, an event that allows another lowers it, and nothing else moves it. */
  predicate FlagMoves(s: State, step: Step, t: State) {
    if t.refreshing > s.refreshing then t.hasRefreshedAuth && !AllowsRefresh(s, step)
    else t.hasRefreshedAuth == (s.hasRefreshedAuth && !AllowsRefresh(s, step))
  }

  lemma FlagChanges(s: State, step: Step)
    requires Enabled(s, step)
    ensures FlagMoves(s, step, Next(s, step))
  {
    match step
    case StepMintFailed(g, error) => MintFailureChangesFlag(s, g, error);
    case StepClosed(i, code, reason) => CloseChangesFlag(s, i, ClassifyClose(code, reason));
    case StepForeground(isStale) => ForegroundChangesFlag(s, isStale);
    case StepSilent(i) => SilenceChangesNoFlag(s, i);
    case StepRefreshSettled(outcome) => SettlingChangesFlag(s, outcome);
    case _ =>
  }

  /** The flag changes only where a refresh starts. */
  predicate FlagRises(s: State, t: State) {
    if t.refreshing > s.refreshing then t.hasRefreshedAuth else t.hasRefreshedAuth == s.hasRefreshedAuth
  }

  lemma FailureChangesNoFlag(s: State)
    ensures FailureRecorded(s).refreshing == s.refreshing
    ensures FailureRecorded(s).hasRefreshedAuth == s.hasRefreshedAuth
  {
  }

  lemma UnauthorizedChangesFlag(s: State, isSessionExpired: bool)
    ensures FlagRises(s, UnauthorizedHandled(s, isSessionExpired))
  {
    FailureChangesNoFlag(s);
  }

  lemma ScheduleChangesNoFlag(s: State, minDelayMs: nat)
    ensures FlagRises(s, ReconnectScheduled(s, minDelayMs))
  {
  }

  lemma ActionChangesFlag(s: State, action: CloseAction)
    ensures FlagRises(s, ActionHandled(s, action))
  {
    match action
    case RefreshAuth(isSessionExpired) => UnauthorizedChangesFlag(s, isSessionExpired);
    case Remint => ScheduleChangesNoFlag(s, 0);
    case Backoff(minDelayMs) => ScheduleChangesNoFlag(s, minDelayMs);
    case _ =>
  }

  lemma MintFailureChangesFlag(s: State, generation: nat, error: TicketError)
    ensures FlagRises(s, MintFailed(s, generation, error))
  {
    ActionChangesFlag(s.(connects := s.connects - {generation}), ClassifyTicketError(error));
  }

  lemma CloseChangesFlag(s: State, i: nat, action: CloseAction)
    requires i < |s.sockets|
    ensures FlagRises(s, Closed(s, i, action))
  {
    ActionChangesFlag(WithoutSocket(s, i), action);
  }

  lemma ForegroundChangesFlag(s: State, isStale: bool)
    ensures var t := Foreground(s, isStale);
      t.refreshing == s.refreshing && t.hasRefreshedAuth == (!s.hasGivenUp && s.hasRefreshedAuth)
  {
  }

  lemma SilenceChangesNoFlag(s: State, i: nat)
    ensures AbandonSilent(s, i).refreshing == s.refreshing
    ensures AbandonSilent(s, i).hasRefreshedAuth == s.hasRefreshedAuth
  {
  }

  lemma SettlingChangesFlag(s: State, outcome: RefreshOutcome)
    requires s.refreshing > 0
    ensures var t := RefreshSettled(s, outcome);
      t.refreshing < s.refreshing &&
      t.hasRefreshedAuth == (s.hasRefreshedAuth && (s.cancelled || outcome != Thrown))
  {
    FailureChangesNoFlag(s.(refreshing := s.refreshing - 1, hasRefreshedAuth := false));
  }

  ghost predicate FlagMovesThroughout(states: seq<State>, steps: seq<Step>) {
    |states| == |steps| + 1 && !states[0].hasRefreshedAuth &&
    forall k {:trigger steps[k]} :: 0 <= k < |steps| ==> FlagMoves(states[k], steps[k], states[k+1])
  }

  /** The flag the code keeps says exactly whether a started refresh still stands. */
  lemma FlagIsHistory(states: seq<State>, steps: seq<Step>, n: nat)
    requires IsRun(states, steps) && n <= |steps|
    ensures states[n].hasRefreshedAuth <==> RefreshedSince(states, steps, n)
  {
    forall k {:trigger steps[k]} | 0 <= k < |steps|
      ensures FlagMoves(states[k], steps[k], states[k+1])
    {
      FlagChanges(states[k], steps[k]);
    }
    FlagSumsUp(states, steps, n);
  }

  lemma {:induction false} FlagSumsUp(states: seq<State>, steps: seq<Step>, n: nat)
    requires FlagMovesThroughout(states, steps) && n <= |steps|
    ensures states[n].hasRefreshedAuth <==> RefreshedSince(states, steps, n)
  {
    if n > 0 {
      FlagSumsUp(states, steps, n - 1);
      assert FlagMoves(states[n-1], steps[n-1], states[n]);
      if RefreshBegins(states, n - 1) {
        assert RefreshStands(states, steps, n - 1, n);
      } else {
        HistoryGoesOn(states, steps, n);
      }
    }
  }

  lemma HistoryGoesOn(states: seq<State>, steps: seq<Step>, n: nat)
    requires 0 < n <= |steps| && |states| == |steps| + 1 && !RefreshBegins(states, n - 1)
    ensures RefreshedSince(states, steps, n) <==>
      RefreshedSince(states, steps, n - 1) && !AllowsRefresh(states[n-1], steps[n-1])
  {
    if RefreshedSince(states, steps, n) {
      var k: nat :| k < n && RefreshStands(states, steps, k, n);
      assert k < n - 1 && RefreshStands(states, steps, k, n - 1);
    }
    if RefreshedSince(states, steps, n - 1) && !AllowsRefresh(states[n-1], steps[n-1]) {
      var k: nat :| k < n - 1 && RefreshStands(states, steps, k, n - 1);
      assert RefreshStands(states, steps, k, n);
    }
  }

  // ---------------------------------------------------------------------
  // Settled refreshes, timers, foregrounds
  // ---------------------------------------------------------------------

  /**
   * A refresh that lands retries, one that ended the session stops, one that
   * threw is a failure and may be tried again.
   */
  lemma SettledRefreshContinues(states: seq<State>, steps: seq<Step>, n: nat)
    requires IsRun(states, steps) && n < |steps| && steps[n].StepRefreshSettled?
    ensures var s, t, outcome := states[n], states[n+1], steps[n].outcome;
      t.refreshing + 1 == s.refreshing && t.socket == s.socket &&
      (s.cancelled ==> t == s.(refreshing := t.refreshing)) &&
      (!s.cancelled && outcome == Refreshed ==>
        RetriesPlainly(s, t) && t.authRecoveryFailures == s.authRecoveryFailures && t.isStopped == s.isStopped) &&
      (!s.cancelled && outcome == SessionEnded ==>
        IsAtRest(t) && t.authRecoveryFailures == s.authRecoveryFailures && t.hasGivenUp == s.hasGivenUp) &&
      (!s.cancelled && outcome == Thrown ==> RecordsFailure(s, t) && !t.hasRefreshedAuth)
  {
    RunStep(states, steps, n);
    if !states[n].cancelled {
      RefreshContinuation(states[n], steps[n].outcome);
    }
  }

  lemma RefreshContinuation(s: State, outcome: RefreshOutcome)
    requires TimersOk(s) && s.refreshing > 0 && !s.cancelled
    ensures var t := RefreshSettled(s, outcome);
      t.refreshing + 1 == s.refreshing && t.socket == s.socket &&
      match outcome
      case Refreshed =>
        RetriesPlainly(s, t) && t.authRecoveryFailures == s.authRecoveryFailures && t.isStopped == s.isStopped
      case SessionEnded =>
        IsAtRest(t) && t.authRecoveryFailures == s.authRecoveryFailures && t.hasGivenUp == s.hasGivenUp
      case Thrown => RecordsFailure(s, t) && !t.hasRefreshedAuth
  {
    var settled := s.(refreshing := s.refreshing - 1);
    assert TimersOk(settled);
    match outcome
    case Refreshed => PlainSchedule(settled);
    case SessionEnded => StoppingRests(settled);
    case Thrown =>
      FailureIsRecorded(settled.(hasRefreshedAuth := false));
      RecordFailureLeavesOthers(settled.(hasRefreshedAuth := false));
  }

  /** The next connect begins, superseding every earlier one. */
  predicate StartsConnect(s: State, t: State) {
    t.connectGeneration == s.connectGeneration + 1 && t.connectGeneration in t.connects &&
    t.connects[t.connectGeneration] == ReadingTokens && t.reconnectTimer == None && t.armed == map[]
  }

  lemma TimerStartsAConnect(states: seq<State>, steps: seq<Step>, n: nat)
    requires IsRun(states, steps) && n < |steps| && steps[n].StepTimerFired?
    ensures StartsConnect(states[n], states[n+1]) && states[n+1].attempt == states[n].attempt
    ensures SameRecovery(states[n], states[n+1]) && states[n+1].socket == states[n].socket
  {
    RunStep(states, steps, n);
    var s := states[n];
    assert s.reconnectTimer == Some(steps[n].timer);
    assert (s.armed - {steps[n].timer}).Keys == {};
  }

  /**
   * A foreground starts afresh after giving up; otherwise it replaces a stale
   * socket at once, unless stopped or in a rate-limit wait; else it does nothing.
   */
  lemma ForegroundConnectsIff(states: seq<State>, steps: seq<Step>, n: nat)
    requires IsRun(states, steps) && n < |steps| && steps[n].StepForeground?
    ensures var s, t := states[n], states[n+1];
      var isWaiting := s.reconnectTimer.Some? && s.pendingMinDelayMs > 0;
      if s.hasGivenUp then
        StartsConnect(s, t) && t.attempt == 0 && t.authRecoveryFailures == 0 && !t.hasRefreshedAuth &&
        !t.isStopped && !t.hasGivenUp && t.socket == s.socket
      else if !s.isStopped && steps[n].isStale && !isWaiting then
        StartsConnect(s, t) && t.attempt == 0 && SameRecovery(s, t) && t.socket == s.socket
      else t == s
  {
    RunStep(states, steps, n);
    ForegroundWhileConnecting(states[n], steps[n].isStale);
  }

  lemma ForegroundWhileConnecting(s: State, isStale: bool)
    requires Inv(s) && !s.cancelled
    ensures var t := Foreground(s, isStale);
      t != s ==> StartsConnect(s, t)
    ensures s.hasGivenUp || (!s.isStopped && isStale && !(s.reconnectTimer.Some? && s.pendingMinDelayMs > 0)) <==>
      Foreground(s, isStale) != s
  {
    assert TimersCleared(s).armed.Keys == {};
    if s.hasGivenUp {
      assert s.armed.Keys == {};
    }
  }

  /** The newest ticket opens a socket and tells the old one to close; a superseded one opens nothing. */
  lemma TicketOpensASocketIff(states: seq<State>, steps: seq<Step>, n: nat)
    requires IsRun(states, steps) && n < |steps| && steps[n].StepMintSucceeded?
    ensures var s, t, g := states[n], states[n+1], steps[n].generation;
      g !in t.connects &&
      if IsRunning(s) && g == s.connectGeneration then
        t.socket == Some(|s.sockets|) && |t.sockets| == |s.sockets| + 1 &&
        t.sockets[|s.sockets|] == Socket(g, false, false, false) &&
        (s.socket.Some? ==> s.socket.value < |t.sockets| && t.sockets[s.socket.value].isTold)
      else t.sockets == s.sockets && t.socket == s.socket
  {
    RunStep(states, steps, n);
  }

  /** A stored token is minted into a ticket; without one, or once cancelled or stopped, the connect ends. */
  lemma ConnectNeedsAToken(states: seq<State>, steps: seq<Step>, n: nat)
    requires IsRun(states, steps) && n < |steps| && steps[n].StepTokensRead?
    ensures var s, t, g := states[n], states[n+1], steps[n].generation;
      t == s.(connects := t.connects) &&
      (g in t.connects <==> IsRunning(s) && steps[n].hasJwt) &&
      (g in t.connects ==> t.connects[g] == MintingTicket)
  {
  }

  /** An open forgives every failure. */
  lemma OpenStartsOver(states: seq<State>, steps: seq<Step>, n: nat)
    requires IsRun(states, steps) && n < |steps| && steps[n].StepOpened?
    ensures var t := states[n+1];
      t.attempt == 0 && t.authRecoveryFailures == 0 && !t.hasRefreshedAuth && t.sockets[steps[n].i].isOpened &&
      t.socket == states[n].socket == Some(steps[n].i) && t.armed == states[n].armed
  {
    RunStep(states, steps, n);
  }

  /** A socket found silent is told to close and replaced after the plain backoff. */
  lemma SilentSocketIsReplaced(states: seq<State>, steps: seq<Step>, n: nat)
    requires IsRun(states, steps) && n < |steps| && steps[n].StepSilent?
    ensures var s, t, i := states[n], states[n+1], steps[n].i;
      if s.socket == Some(i) then t.socket == None && t.sockets[i].isTold && RetriesPlainly(s, t) && SameRecovery(s, t)
      else t == s
  {
    RunStep(states, steps, n);
    PlainSchedule(SocketClosed(states[n]));
  }

  lemma CleanupLeavesNothing(states: seq<State>, steps: seq<Step>, n: nat)
    requires IsRun(states, steps) && n < |steps| && steps[n].StepCleanup?
    ensures var s, t := states[n], states[n+1];
      t.cancelled && t.socket == None && t.reconnectTimer == None && t.armed == map[] &&
      (s.socket.Some? ==> s.socket.value < |t.sockets| && t.sockets[s.socket.value].isTold)
  {
    RunStep(states, steps, n);
    assert TimersCleared(states[n]).armed.Keys == {};
  }

  // ---------------------------------------------------------------------
  // How long a wait lasts
  // ---------------------------------------------------------------------

  /** From state `n` to state `m` the machine is never stopped or cancelled and this timer does not fire. */
  predicate WaitIsLeftAlone(states: seq<State>, steps: seq<Step>, n: nat, m: nat, timer: nat)
    requires n <= m < |states| && |states| == |steps| + 1
  {
    (forall k :: n <= k <= m ==> IsRunning(states[k])) &&
    (forall k :: n <= k < m ==> steps[k] != StepTimerFired(timer))
  }

  /**
   * A rate-limit wait lasts until its timer fires, the machine stops or the
   * effect is cleaned up: until then no connect starts, whatever else happens.
   */
  lemma {:induction false} RateLimitWaitLasts(states: seq<State>, steps: seq<Step>, n: nat, m: nat, timer: nat)
    requires IsRun(states, steps) && n <= m < |states| && WaitIsLeftAlone(states, steps, n, m, timer)
    requires states[n].reconnectTimer == Some(timer) && states[n].pendingMinDelayMs > 0 && timer in states[n].armed
    ensures var s, t := states[n], states[m];
      t.connectGeneration == s.connectGeneration && t.reconnectTimer == Some(timer) &&
      t.pendingMinDelayMs == s.pendingMinDelayMs && timer in t.armed && t.armed[timer] == s.armed[timer]
    decreases m
  {
    if n < m {
      RateLimitWaitLasts(states, steps, n, m - 1, timer);
      RunStep(states, steps, m - 1);
      WaitOutlivesStep(states[m-1], steps[m-1], timer);
    }
  }

  predicate SameWait(s: State, t: State) {
    t.connectGeneration == s.connectGeneration && t.reconnectTimer == s.reconnectTimer &&
    t.pendingMinDelayMs == s.pendingMinDelayMs && t.armed == s.armed
  }

  lemma WaitOutlivesStep(s: State, step: Step, timer: nat)
    requires Inv(s) && Enabled(s, step) && step != StepTimerFired(timer)
    requires IsRunning(s) && IsRunning(Next(s, step))
    requires s.reconnectTimer == Some(timer) && s.pendingMinDelayMs > 0
    ensures SameWait(s, Next(s, step))
  {
    match step
    case StepMintFailed(g, error) => WaitOutlivesAction(s.(connects := s.connects - {g}), ClassifyTicketError(error));
    case StepClosed(i, code, reason) => WaitOutlivesAction(WithoutSocket(s, i), ClassifyClose(code, reason));
    case StepMintSucceeded(g) => TicketLeavesTheWait(s, g);
    case StepRefreshSettled(outcome) => SettlingLeavesTheWait(s, outcome);
    case StepSilent(i) => SilenceLeavesTheWait(s, i);
    case StepForeground(isStale) =>
    case _ =>
  }

  lemma WaitOutlivesAction(s: State, action: CloseAction)
    requires s.reconnectTimer.Some?
    ensures var t := ActionHandled(s, action); !t.isStopped ==> SameWait(s, t)
  {
    if action.RefreshAuth? {
      UnauthorizedLeavesTheWait(s, action.isSessionExpired);
    }
  }

  lemma UnauthorizedLeavesTheWait(s: State, isSessionExpired: bool)
    requires s.reconnectTimer.Some?
    ensures var t := UnauthorizedHandled(s, isSessionExpired); !t.isStopped ==> SameWait(s, t)
  {
    FailureLeavesTheWait(s);
  }

  lemma FailureLeavesTheWait(s: State)
    requires s.reconnectTimer.Some?
    ensures var t := FailureRecorded(s); !t.isStopped ==> SameWait(s, t)
  {
  }

  lemma TicketLeavesTheWait(s: State, generation: nat)
    ensures SameWait(s, MintSucceeded(s, generation))
  {
  }

  lemma SettlingLeavesTheWait(s: State, outcome: RefreshOutcome)
    requires s.refreshing > 0 && s.reconnectTimer.Some?
    ensures var t := RefreshSettled(s, outcome); !t.isStopped ==> SameWait(s, t)
  {
    FailureLeavesTheWait(s.(refreshing := s.refreshing - 1, hasRefreshedAuth := false));
  }

  lemma SilenceLeavesTheWait(s: State, i: nat)
    requires s.reconnectTimer.Some?
    ensures SameWait(s, AbandonSilent(s, i))
  {
  }

  /** From state `n` to state `m` no foreground finds that the machine has given up. */
  predicate IsNotRestarted(states: seq<State>, steps: seq<Step>, n: nat, m: nat)
    requires n <= m < |states| && |states| == |steps| + 1
  {
    forall k :: n <= k < m ==> !(steps[k].StepForeground? && states[k].hasGivenUp)
  }

  /**
   * A stopped machine starts no connect and creates no socket until a
   * foreground finds that it stopped by giving up.
   */
  lemma {:induction false} StoppedUntilRestarted(states: seq<State>, steps: seq<Step>, n: nat, m: nat)
    requires IsRun(states, steps) && n <= m < |states| && states[n].isStopped
    requires IsNotRestarted(states, steps, n, m)
    ensures var s, t := states[n], states[m];
      t.isStopped && t.reconnectTimer == None && t.connectGeneration == s.connectGeneration &&
      |t.sockets| == |s.sockets|
    decreases m
  {
    EveryRunKeepsInv(states, steps, m);
    if n < m {
      StoppedUntilRestarted(states, steps, n, m - 1);
      StopOutlivesStep(states, steps, m - 1);
    }
  }

  lemma StopOutlivesStep(states: seq<State>, steps: seq<Step>, n: nat)
    requires IsRun(states, steps) && n < |steps| && states[n].isStopped
    requires !(steps[n].StepForeground? && states[n].hasGivenUp)
    ensures var s, t := states[n], states[n+1];
      t.isStopped && t.connectGeneration == s.connectGeneration && |t.sockets| == |s.sockets|
  {
    RunStep(states, steps, n);
    StaysStopped(states[n], steps[n]);
  }

  lemma StaysStopped(s: State, step: Step)
    requires Inv(s) && Enabled(s, step) && s.isStopped && !(step.StepForeground? && s.hasGivenUp)
    ensures var t := Next(s, step);
      t.isStopped && t.connectGeneration == s.connectGeneration && |t.sockets| == |s.sockets|
  {
    match step
    case StepMintFailed(_, _) =>
    case StepClosed(i, code, reason) => ActionStaysStopped(WithoutSocket(s, i), ClassifyClose(code, reason));
    case StepRefreshSettled(outcome) => SettlingStaysStopped(s, outcome);
    case StepSilent(i) => SilenceStaysStopped(s, i);
    case _ =>
  }

  lemma ActionStaysStopped(s: State, action: CloseAction)
    requires s.isStopped
    ensures var t := ActionHandled(s, action);
      t.isStopped && t.connectGeneration == s.connectGeneration && t.sockets == s.sockets
  {
    if action.RefreshAuth? {
      UnauthorizedStaysStopped(s, action.isSessionExpired);
    }
  }

  lemma UnauthorizedStaysStopped(s: State, isSessionExpired: bool)
    requires s.isStopped
    ensures var t := UnauthorizedHandled(s, isSessionExpired);
      t.isStopped && t.connectGeneration == s.connectGeneration && t.sockets == s.sockets
  {
    FailureStaysStopped(s);
  }

  lemma FailureStaysStopped(s: State)
    requires s.isStopped
    ensures var t := FailureRecorded(s);
      t.isStopped && t.connectGeneration == s.connectGeneration && t.sockets == s.sockets
  {
  }

  lemma SettlingStaysStopped(s: State, outcome: RefreshOutcome)
    requires s.refreshing > 0 && s.isStopped
    ensures var t := RefreshSettled(s, outcome);
      t.isStopped && t.connectGeneration == s.connectGeneration && t.sockets == s.sockets
  {
    FailureStaysStopped(s.(refreshing := s.refreshing - 1, hasRefreshedAuth := false));
  }

  lemma SilenceStaysStopped(s: State, i: nat)
    requires s.isStopped
    ensures var t := AbandonSilent(s, i);
      t.isStopped && t.connectGeneration == s.connectGeneration && |t.sockets| == |s.sockets|
  {
  }

  // ---------------------------------------------------------------------
  // Where a rate-limit wait is cut short
  // ---------------------------------------------------------------------

  /** A reachable state in which the current, open socket can close with 4429 and the pending retry stays one second. */
  ghost predicate ShortRetryStands(s: State, i: nat) {
    Leads(INITIAL, s) && s.socket == Some(i) && Enabled(s, StepClosed(i, Some(4429), None)) && IsRunning(s) &&
    WaitsExactly(Next(s, StepClosed(i, Some(4429), None)), 1000)
  }

  /** The ticket for a replacement is refused, the refresh lands and arms a retry, then the old socket is rate limited. */
  lemma ShortRetryOutlivesARateLimit()
    ensures exists s: State, i: nat :: ShortRetryStands(s, i)
  {
    var open := FirstSocketOpens();
    var minting := SilentSocketReconnects(open);
    var refused := RefusedTicketRefreshes(open, minting);
    var s := LandedRefresh(refused);
    LeadsOn(INITIAL, open, minting);
    LeadsOn(INITIAL, minting, refused);
    LeadsOn(INITIAL, refused, s);
    PlainDelays(0);
    assert ShortRetryStands(s, 0);
  }

  /** From a reachable state waiting out a rate limit, steps none of which is its timer start a connect. */
  ghost predicate WaitIsCut(s: State, steps: seq<Step>, t: State) {
    Leads(INITIAL, s) && WaitsExactly(s, 60_000) && s.pendingMinDelayMs == 60_000 && Plays(s, steps, t) &&
    (forall k :: 0 <= k < |steps| ==> !steps[k].StepTimerFired?) &&
    t.connectGeneration > s.connectGeneration
  }

  /** A refresh still pending throws as the fifth failure, which drops the timer, and a foreground starts over. */
  lemma GivingUpCutsTheWait()
    ensures exists s: State, steps: seq<Step>, t: State :: WaitIsCut(s, steps, t)
  {
    var s := WaitBesideARefresh();
    var up := Next(s, StepRefreshSettled(Thrown));
    var t := Next(up, StepForeground(true));
    var steps := [StepRefreshSettled(Thrown), StepForeground(true)];
    assert steps[1..] == [StepForeground(true)] && steps[1..][1..] == [];
    assert Plays(t, [], t);
    assert Plays(up, steps[1..], t);
    assert WaitIsCut(s, steps, t);
  }

  lemma WaitBesideARefresh() returns (s: State)
    ensures Leads(INITIAL, s) && WaitsExactly(s, 60_000) && s.pendingMinDelayMs == 60_000
    ensures s.refreshing == 1 && s.authRecoveryFailures == 4 && IsRunning(s) && !s.hasGivenUp
  {
    var four := FourFailures(0);
    var m := RejectedMint(four, 4, 4, 0);
    var m1 := Next(m, StepForeground(true));
    OneStep(m, StepForeground(true));
    var g := m1.connectGeneration;
    var m2 := Next(m1, StepTokensRead(g, true));
    OneStep(m1, StepTokensRead(g, true));
    s := Next(m2, StepMintFailed(g, RateLimited));
    OneStep(m2, StepMintFailed(g, RateLimited));
    PlainDelays(m2.attempt);
    LeadsOn(INITIAL, four, m);
    LeadsOn(INITIAL, m, m1);
    LeadsOn(INITIAL, m1, m2);
    LeadsOn(INITIAL, m2, s);
  }

  // ---------------------------------------------------------------------
  // Errors
  // ---------------------------------------------------------------------

  /** An errored socket is told to close; what follows is up to its close event. */
  lemma ErroredSocketIsTold(states: seq<State>, steps: seq<Step>, n: nat)
    requires IsRun(states, steps) && n < |steps| && steps[n].StepErrored?
    ensures var s, t, i := states[n], states[n+1], steps[n].i;
      |t.sockets| == |s.sockets| && i < |t.sockets| && t.sockets[i] == s.sockets[i].(isTold := true) &&
      t == s.(sockets := s.sockets[i := t.sockets[i]])
  {
    RunStep(states, steps, n);
  }
}
