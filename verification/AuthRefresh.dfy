/**
 * The shared, single-flight session refresh against logins and logouts
 * (farcaster-audio/services/authRefresh.ts, farcaster-audio/stores/authStore.ts).
 */
module AuthRefresh {
  import opened Options

  /** A one-time refresh token, named by the order in which the server issued it. */
  type Token = nat

  /**
   * Where a run is. `found` is what `getTokens` returned and `readGen` the
   * session generation at that moment (kept for proofs); `startGen` is the
   * snapshot the code takes when it resumes.
   */
  datatype Phase =
    | Reading
    | HasRead(found: Option<Token>, readGen: nat)
    | Posting(token: Token, readGen: nat, startGen: nat)
    | Settled

  /** `refreshToken` is absent when the server answered in cookie mode. */
  datatype Response = Success(refreshToken: Option<Token>) | AuthRejected | Transient

  /**
   * Storage, the auth store, the module variable `inFlight` with the runs it
   * started, and what the outside has seen: tokens issued so far, tokens
   * posted, and tokens spent: the server answered them with a new one, whether
   * the client applied that answer or discarded it.
   */
  datatype State = State(
    stored: Option<Token>,
    session: Option<Token>,
    isAuthenticated: bool,
    sessionGen: nat,
    inFlight: Option<nat>,
    runs: map<nat, Phase>,
    runsStarted: nat,
    issued: nat,
    posted: set<Token>,
    spent: set<Token>)

  // ---------------------------------------------------------------------
  // The store's actions, storage writes included
  // ---------------------------------------------------------------------

  function AuthSet(s: State, token: Token): State {
    s.(stored := Some(token), session := Some(token), isAuthenticated := true, sessionGen := s.sessionGen + 1)
  }

  function RefreshApplied(s: State, token: Token): State {
    s.(stored := Some(token), session := Some(token), isAuthenticated := true)
  }

  function LoggedOut(s: State): State {
    s.(stored := None, session := None, isAuthenticated := false, sessionGen := s.sessionGen + 1)
  }

  /** `hydrate` restores a stored session only with its profile. */
  function Hydrated(s: State, hasProfile: bool): State {
    if s.stored.Some? && hasProfile then s.(session := s.stored, isAuthenticated := true) else s
  }

  // ---------------------------------------------------------------------
  // refreshSession and runRefresh, cut at their awaits
  // ---------------------------------------------------------------------

  /** `refreshSession`: join the run in flight or start one. */
  function Called(s: State): State {
    if s.inFlight.Some? then s
    else
      s.(inFlight := Some(s.runsStarted),
         runs := s.runs[s.runsStarted := Reading],
         runsStarted := s.runsStarted + 1)
  }

  /** Storage answers `getTokens`. */
  function StorageRead(s: State, run: nat): State {
    s.(runs := s.runs[run := HasRead(s.stored, s.sessionGen)])
  }

  /** `runRefresh` resumes: nothing to refresh with logs out, otherwise snapshot and post. */
  function Resumed(s: State, run: nat): State
    requires run in s.runs && s.runs[run].HasRead?
  {
    var phase := s.runs[run];
    if phase.found == None then LoggedOut(s).(runs := s.runs[run := Settled])
    else
      s.(runs := s.runs[run := Posting(phase.found.value, phase.readGen, s.sessionGen)],
         posted := s.posted + {phase.found.value})
  }

  /** The response arrives: discarded after a login or logout, else applied or acted on. */
  function Responded(s: State, run: nat, response: Response): State
    requires run in s.runs && s.runs[run].Posting?
  {
    var phase := s.runs[run];
    var done := Answered(s, phase.token, response).(runs := s.runs[run := Settled]);
    if s.sessionGen != phase.startGen then done
    else
      match response
      case Success(refreshToken) =>
        // `saveTokens` throws before any write when the refresh token is missing.
        if refreshToken == None then done else RefreshApplied(done, refreshToken.value)
      case AuthRejected => LoggedOut(done)
      case Transient => done
  }

  /** What the server has done by answering: a new token spends the one posted. */
  function Answered(s: State, token: Token, response: Response): State {
    if response.Success? && response.refreshToken.Some? then
      s.(spent := s.spent + {token}, issued := Later(s.issued, response.refreshToken.value))
    else s
  }

  function Later(issued: nat, token: Token): nat {
    if token >= issued then token + 1 else issued
  }

  /** `.finally(() => { inFlight = null })`. */
  function Finalized(s: State, run: nat): State {
    s.(inFlight := None, runs := s.runs - {run})
  }

  /** The module variable, the store and storage, updated in place; what the outside has seen is for proofs only. */
  class AuthSession {
    var stored: Option<Token>
    var session: Option<Token>
    var isAuthenticated: bool
    var sessionGen: nat
    var inFlight: Option<nat>
    var runs: map<nat, Phase>
    var runsStarted: nat
    ghost var issued: nat
    ghost var posted: set<Token>
    ghost var spent: set<Token>

    ghost function Now(): State
      reads this
    {
      State(stored, session, isAuthenticated, sessionGen, inFlight, runs, runsStarted, issued, posted, spent)
    }

    ghost predicate Valid()
      reads this
    {
      Inv(Now())
    }

    constructor (initial: Option<Token>)
      ensures Valid() && Now() == Launched(initial)
    {
      stored, session, isAuthenticated, sessionGen := initial, None, false, 0;
      inFlight, runs, runsStarted := None, map[], 0;
      issued := if initial.Some? then initial.value + 1 else 0;
      posted, spent := {}, {};
    }

    method SetAuth(token: Token)
      requires Valid() && Enabled(Now(), Step.Login(token))
      modifies this
      ensures Valid() && Now() == Next(old(Now()), Step.Login(token))
    {
      LoginKeepsInv(Now(), token);
      stored := Some(token);
      session, isAuthenticated := Some(token), true;
      sessionGen := sessionGen + 1;
      issued := token + 1;
    }

    method ApplyRefresh(token: Token)
      modifies this
      ensures Now() == RefreshApplied(old(Now()), token)
    {
      stored := Some(token);
      session, isAuthenticated := Some(token), true;
    }

    method Logout()
      requires Valid()
      modifies this
      ensures Valid() && Now() == Next(old(Now()), Step.Logout)
    {
      LogoutKeepsInv(Now());
      stored := None;
      session, isAuthenticated := None, false;
      sessionGen := sessionGen + 1;
    }

    method Hydrate(hasProfile: bool)
      requires Valid()
      modifies this
      ensures Valid() && Now() == Next(old(Now()), Step.Hydrate(hasProfile))
    {
      HydrateKeepsInv(Now(), hasProfile);
      if stored.Some? && hasProfile {
        session, isAuthenticated := stored, true;
      }
    }

    method RefreshSession() returns (run: nat)
      requires Valid()
      modifies this
      ensures Valid() && Now() == Next(old(Now()), Step.Call) && inFlight == Some(run)
    {
      CallKeepsInv(Now());
      if inFlight.Some? {
        return inFlight.value;
      }
      run := runsStarted;
      runs := runs[run := Reading];
      runsStarted := runsStarted + 1;
      inFlight := Some(run);
    }

    method OnTokens(run: nat)
      requires Valid() && Enabled(Now(), Step.Read(run))
      modifies this
      ensures Valid() && Now() == Next(old(Now()), Step.Read(run))
    {
      ReadKeepsInv(Now(), run);
      runs := runs[run := HasRead(stored, sessionGen)];
    }

    method OnResume(run: nat)
      requires Valid() && Enabled(Now(), Step.Resume(run))
      modifies this
      ensures Valid() && Now() == Next(old(Now()), Step.Resume(run))
    {
      ResumeKeepsInv(Now(), run);
      var token := runs[run].found;
      if token == None {
        Logout();
        runs := runs[run := Settled];
        return;
      }
      runs := runs[run := Posting(token.value, runs[run].readGen, sessionGen)];
      posted := posted + {token.value};
    }

    method OnResponse(run: nat, response: Response)
      requires Valid() && Enabled(Now(), Step.Respond(run, response))
      modifies this
      ensures Valid() && Now() == Next(old(Now()), Step.Respond(run, response))
    {
      RespondKeepsInv(Now(), run, response);
      var phase := runs[run];
      SettlingKeepsInv(Now(), run);
      runs := runs[run := Settled];
      if response.Success? && response.refreshToken.Some? {
        spent := spent + {phase.token};
        issued := Later(issued, response.refreshToken.value);
      }
      if sessionGen != phase.startGen {
        return;
      }
      match response
      case Success(refreshToken) =>
        if refreshToken.Some? {
          ApplyRefresh(refreshToken.value);
        }
      case AuthRejected => Logout();
      case Transient =>
    }

    method OnFinally(run: nat)
      requires Valid() && Enabled(Now(), Step.Finalize(run))
      modifies this
      ensures Valid() && Now() == Next(old(Now()), Step.Finalize(run))
    {
      FinalizeKeepsInv(Now(), run);
      inFlight := None;
      runs := runs - {run};
    }
  }

  // ---------------------------------------------------------------------
  // Interleavings
  // ---------------------------------------------------------------------

  function Launched(initial: Option<Token>): State {
    State(initial, None, false, 0, None, map[], 0, if initial.Some? then initial.value + 1 else 0, {}, {})
  }

  datatype Step =
    | Call
    | Read(run: nat)
    | Resume(run: nat)
    | Respond(run: nat, response: Response)
    | Finalize(run: nat)
    | Login(token: Token)
    | Logout
    | Hydrate(hasProfile: bool)

  /** The server never issues a token twice. */
  predicate Enabled(s: State, step: Step) {
    match step
    case Call => true
    case Read(run) => run in s.runs && s.runs[run] == Reading
    case Resume(run) => run in s.runs && s.runs[run].HasRead?
    case Respond(run, response) =>
      run in s.runs && s.runs[run].Posting? &&
      (response.Success? && response.refreshToken.Some? ==> response.refreshToken.value >= s.issued)
    case Finalize(run) => run in s.runs && s.runs[run] == Settled
    case Login(token) => token >= s.issued
    case Logout => true
    case Hydrate(_) => true
  }

  function Next(s: State, step: Step): State
    requires Enabled(s, step)
  {
    match step
    case Call => Called(s)
    case Read(run) => StorageRead(s, run)
    case Resume(run) => Resumed(s, run)
    case Respond(run, response) => Responded(s, run, response)
    case Finalize(run) => Finalized(s, run)
    case Login(token) => AuthSet(s, token).(issued := token + 1)
    case Logout => LoggedOut(s)
    case Hydrate(hasProfile) => Hydrated(s, hasProfile)
  }

  ghost predicate IsRun(states: seq<State>, steps: seq<Step>) {
    |states| == |steps| + 1 && (exists initial :: states[0] == Launched(initial)) &&
    forall n {:trigger steps[n]} :: 0 <= n < |steps| ==>
      Enabled(states[n], steps[n]) && states[n+1] == Next(states[n], steps[n])
  }

  // ---------------------------------------------------------------------
  // Invariants
  // ---------------------------------------------------------------------

  predicate TokenOk(s: State, token: Token) {
    token < s.issued && token !in s.spent
  }

  /**
   * Storage still holds the token a run read exactly as long as no login or
   * logout has intervened since that read.
   */
  predicate PhaseOk(s: State, phase: Phase) {
    match phase
    case Reading => true
    case HasRead(found, readGen) =>
      readGen <= s.sessionGen && (readGen == s.sessionGen ==> s.stored == found) &&
      (found.Some? ==> TokenOk(s, found.value) && (readGen < s.sessionGen ==> s.stored != found))
    case Posting(token, readGen, startGen) =>
      TokenOk(s, token) && token in s.posted && readGen <= startGen <= s.sessionGen &&
      (readGen == s.sessionGen <==> s.stored == Some(token))
    case Settled => true
  }

  predicate Inv(s: State) {
    s.runs.Keys == (if s.inFlight == None then {} else {s.inFlight.value}) &&
    (s.inFlight.Some? ==> s.inFlight.value < s.runsStarted && PhaseOk(s, s.runs[s.inFlight.value])) &&
    (s.stored.Some? ==> TokenOk(s, s.stored.value)) &&
    (s.session.Some? ==> s.session == s.stored) && s.isAuthenticated == s.session.Some? &&
    (forall t :: t in s.spent ==> t < s.issued && t in s.posted)
  }

  lemma CallKeepsInv(s: State)
    requires Inv(s)
    ensures Inv(Called(s))
  {
  }

  lemma ReadKeepsInv(s: State, run: nat)
    requires Inv(s) && Enabled(s, Read(run))
    ensures Inv(StorageRead(s, run))
  {
  }

  lemma ResumeKeepsInv(s: State, run: nat)
    requires Inv(s) && Enabled(s, Resume(run))
    ensures Inv(Resumed(s, run))
  {
  }

  lemma RespondKeepsInv(s: State, run: nat, response: Response)
    requires Inv(s) && Enabled(s, Respond(run, response))
    ensures Inv(Responded(s, run, response))
  {
  }

  lemma SettlingKeepsInv(s: State, run: nat)
    requires Inv(s) && run in s.runs
    ensures Inv(s.(runs := s.runs[run := Settled]))
  {
  }

  lemma FinalizeKeepsInv(s: State, run: nat)
    requires Inv(s) && Enabled(s, Finalize(run))
    ensures Inv(Finalized(s, run))
  {
  }

  lemma LoginKeepsInv(s: State, token: Token)
    requires Inv(s) && token >= s.issued
    ensures Inv(AuthSet(s, token).(issued := token + 1))
  {
  }

  lemma LogoutKeepsInv(s: State)
    requires Inv(s)
    ensures Inv(LoggedOut(s))
  {
  }

  lemma HydrateKeepsInv(s: State, hasProfile: bool)
    requires Inv(s)
    ensures Inv(Hydrated(s, hasProfile))
  {
  }

  lemma StepKeepsInv(s: State, step: Step)
    requires Inv(s) && Enabled(s, step)
    ensures Inv(Next(s, step))
  {
    match step
    case Call => CallKeepsInv(s);
    case Read(run) => ReadKeepsInv(s, run);
    case Resume(run) => ResumeKeepsInv(s, run);
    case Respond(run, response) => RespondKeepsInv(s, run, response);
    case Finalize(run) => FinalizeKeepsInv(s, run);
    case Login(token) => LoginKeepsInv(s, token);
    case Logout => LogoutKeepsInv(s);
    case Hydrate(hasProfile) => HydrateKeepsInv(s, hasProfile);
  }

  lemma {:induction false} EveryRunKeepsInv(states: seq<State>, steps: seq<Step>, n: nat)
    requires IsRun(states, steps) && n < |states|
    ensures Inv(states[n])
  {
    if n > 0 {
      EveryRunKeepsInv(states, steps, n - 1);
      StepKeepsInv(states[n-1], steps[n-1]);
    }
  }

  // ---------------------------------------------------------------------
  // What every interleaving guarantees
  // ---------------------------------------------------------------------

  /** However many callers there are, at most one refresh is under way, and every caller joins it. */
  lemma AtMostOneRefresh(states: seq<State>, steps: seq<Step>, n: nat, a: nat, b: nat)
    requires IsRun(states, steps) && n < |states|
    ensures a in states[n].runs && b in states[n].runs ==> a == b
    ensures n < |steps| && steps[n] == Call && states[n].runs != map[] ==> states[n+1] == states[n]
  {
    EveryRunKeepsInv(states, steps, n);
  }

  /**
   * The token being posted was never spent: no refresh token the server has
   * answered with a new one, in an answer applied or discarded, is posted again.
   */
  lemma SpentTokensAreNeverPosted(states: seq<State>, steps: seq<Step>, n: nat)
    requires IsRun(states, steps) && n < |steps|
    ensures states[n+1].posted == states[n].posted ||
      (exists token :: token !in states[n].spent && states[n+1].posted == states[n].posted + {token})
    ensures steps[n].Resume? && states[n].runs[steps[n].run].found.Some? ==>
      states[n].runs[steps[n].run].found.value !in states[n].spent
    ensures states[n].stored.Some? ==> states[n].stored.value !in states[n].spent
  {
    EveryRunKeepsInv(states, steps, n);
    if steps[n].Resume? && states[n].runs[steps[n].run].found.Some? {
      var token := states[n].runs[steps[n].run].found.value;
      assert token !in states[n].spent;
      assert states[n+1].posted == states[n].posted + {token};
    }
  }

  /** Answering spends: the token posted for a response that carries a new one is spent from then on. */
  lemma {:induction false} AnsweredTokensAreSpent(states: seq<State>, steps: seq<Step>, n: nat, later: nat)
    requires IsRun(states, steps) && n < |steps| && n < later < |states|
    requires steps[n].Respond? && steps[n].response.Success? && steps[n].response.refreshToken.Some?
    ensures states[n].runs[steps[n].run].token in states[later].spent
  {
    if later > n + 1 {
      AnsweredTokensAreSpent(states, steps, n, later - 1);
    }
    assert Enabled(states[later-1], steps[later-1]);
  }

  /** So a token that the server has answered with a new one is never posted again, even if that answer was discarded. */
  lemma AnsweredTokenIsNotPostedAgain(states: seq<State>, steps: seq<Step>, n: nat, q: nat)
    requires IsRun(states, steps) && n < q < |steps| && steps[q].Resume?
    requires steps[n].Respond? && steps[n].response.Success? && steps[n].response.refreshToken.Some?
    ensures states[q].runs[steps[q].run].found != Some(states[n].runs[steps[n].run].token)
  {
    AnsweredTokensAreSpent(states, steps, n, q);
    SpentTokensAreNeverPosted(states, steps, q);
  }

  /** The session, as far as a response could change it. */
  predicate SameSession(s: State, t: State) {
    t.stored == s.stored && t.session == s.session && t.isAuthenticated == s.isAuthenticated &&
    t.sessionGen == s.sessionGen
  }

  predicate IsLoginOrLogout(step: Step) {
    step.Login? || step.Logout?
  }

  lemma {:induction false} GenerationOnlyGrows(states: seq<State>, steps: seq<Step>, m: nat, n: nat)
    requires IsRun(states, steps) && m <= n < |states|
    ensures states[m].sessionGen <= states[n].sessionGen
  {
    if m < n {
      GenerationOnlyGrows(states, steps, m, n - 1);
      assert Enabled(states[n-1], steps[n-1]);
    }
  }

  lemma {:induction false} LoginsAndLogoutsStartAGeneration(
    states: seq<State>, steps: seq<Step>, m: nat, k: nat, n: nat)
    requires IsRun(states, steps) && m <= k < n < |states| && IsLoginOrLogout(steps[k])
    ensures states[m].sessionGen < states[n].sessionGen
  {
    GenerationOnlyGrows(states, steps, m, k);
    GenerationOnlyGrows(states, steps, k + 1, n);
  }

  lemma StepAfterResuming(s: State, step: Step, run: nat)
    requires Enabled(s, step) && run < s.runsStarted
    requires run in s.runs ==> s.runs[run].Posting? || s.runs[run].Settled?
    ensures run < Next(s, step).runsStarted
    ensures run in Next(s, step).runs ==>
      run in s.runs && (Next(s, step).runs[run] == s.runs[run] || Next(s, step).runs[run] == Settled)
  {
  }

  /** Once resumed, a run keeps what it posted until it has settled, and its number is never used again. */
  lemma {:induction false} ResumedRunStays(states: seq<State>, steps: seq<Step>, m: nat, n: nat, run: nat)
    requires IsRun(states, steps) && m < n < |states| && steps[m] == Resume(run)
    ensures run < states[n].runsStarted
    ensures run in states[n].runs ==> states[n].runs[run].Posting? || states[n].runs[run].Settled?
    ensures run in states[n].runs ==>
      states[n].runs[run] == Settled ||
      (run in states[m+1].runs && states[n].runs[run] == states[m+1].runs[run])
  {
    if n == m + 1 {
      EveryRunKeepsInv(states, steps, m);
      assert states[m+1] == Resumed(states[m], run);
    } else {
      ResumedRunStays(states, steps, m, n - 1, run);
      StepAfterResuming(states[n-1], steps[n-1], run);
    }
  }

  /** A response that arrives after a login or logout since its run took the snapshot leaves the session alone. */
  lemma LateResponseChangesNothing(states: seq<State>, steps: seq<Step>, m: nat, k: nat, n: nat, run: nat)
    requires IsRun(states, steps) && m < k < n < |steps|
    requires steps[m] == Resume(run) && IsLoginOrLogout(steps[k])
    requires steps[n].Respond? && steps[n].run == run
    ensures SameSession(states[n], states[n+1])
  {
    ResumedRunStays(states, steps, m, n, run);
    LoginsAndLogoutsStartAGeneration(states, steps, m, k, n);
    assert states[m+1] == Resumed(states[m], run);
  }

  /**
   * A response that finds another generation than its own changes nothing of
   * the session; and a signed-in session is only ever ended by a logout, an
   * empty storage, or a conclusive rejection under its own generation.
   */
  lemma SessionsEndOnlyConclusively(states: seq<State>, steps: seq<Step>, n: nat)
    requires IsRun(states, steps) && n < |steps|
    ensures steps[n].Respond? && states[n].runs[steps[n].run].startGen != states[n].sessionGen ==>
      SameSession(states[n], states[n+1])
    ensures states[n].isAuthenticated && !states[n+1].isAuthenticated ==>
      steps[n] == Logout ||
      (steps[n].Resume? && states[n].runs[steps[n].run].found == None) ||
      (steps[n].Respond? && steps[n].response == AuthRejected &&
       states[n].runs[steps[n].run].startGen == states[n].sessionGen)
  {
    EveryRunKeepsInv(states, steps, n);
  }

  /** The step applies a refresh: its response is current and carries new tokens. */
  predicate Applies(s: State, step: Step)
    requires Enabled(s, step)
  {
    step.Respond? && step.response.Success? && step.response.refreshToken.Some? &&
    s.runs[step.run].startGen == s.sessionGen
  }

  /** Between reading storage and resuming, a run stays as it read it. */
  lemma {:induction false} ReadRunStays(states: seq<State>, steps: seq<Step>, r: nat, t: nat, m: nat, run: nat)
    requires IsRun(states, steps) && r < t <= m < |steps|
    requires steps[r] == Read(run) && steps[m] == Resume(run)
    ensures run in states[t].runs && states[t].runs[run] == HasRead(states[r].stored, states[r].sessionGen)
  {
    if t > r + 1 {
      ReadRunStays(states, steps, r, t - 1, m, run);
      EveryRunKeepsInv(states, steps, t - 1);
      if steps[t-1] == Resume(run) {
        ResumedRunStays(states, steps, t - 1, m, run);
      }
    }
  }

  predicate HasLoginOrLogout(steps: seq<Step>, from: nat, to: nat)
    requires to <= |steps|
  {
    exists k :: from < k < to && IsLoginOrLogout(steps[k])
  }

  lemma StepWhileWaiting(s: State, step: Step, run: nat)
    requires Inv(s) && Enabled(s, step) && run in s.runs && s.runs[run].HasRead?
    requires !IsLoginOrLogout(step) && step != Resume(run)
    ensures Next(s, step).sessionGen == s.sessionGen
  {
    assert s.runs.Keys == {run};
  }

  /** While a run waits to resume, only logins and logouts start a generation. */
  lemma {:induction false} GenerationWhileWaiting(states: seq<State>, steps: seq<Step>, r: nat, t: nat, m: nat, run: nat)
    requires IsRun(states, steps) && r < t <= m < |steps|
    requires steps[r] == Read(run) && steps[m] == Resume(run)
    requires !HasLoginOrLogout(steps, r, t)
    ensures states[t].sessionGen == states[r].sessionGen
  {
    if t == r + 1 {
      assert states[t] == StorageRead(states[r], run);
    } else {
      WaitingStillNone(steps, r, t);
      GenerationWhileWaiting(states, steps, r, t - 1, m, run);
      ReadRunStays(states, steps, r, t - 1, m, run);
      ReadRunStays(states, steps, r, t, m, run);
      EveryRunKeepsInv(states, steps, t - 1);
      assert steps[t-1] != Resume(run) by {
        assert states[t] == Next(states[t-1], steps[t-1]);
      }
      StepWhileWaiting(states[t-1], steps[t-1], run);
    }
  }

  lemma WaitingStillNone(steps: seq<Step>, r: nat, t: nat)
    requires r + 1 < t <= |steps| && !HasLoginOrLogout(steps, r, t)
    ensures !HasLoginOrLogout(steps, r, t - 1) && !IsLoginOrLogout(steps[t-1])
  {
  }

  /**
   * An applied refresh replaces the very token it spent exactly when no login
   * or logout fell between reading storage and resuming. The code takes its
   * snapshot when it resumes, so the other case does occur.
   */
  lemma RefreshReplacesItsOwnTokenIff(states: seq<State>, steps: seq<Step>, r: nat, m: nat, n: nat, run: nat)
    requires IsRun(states, steps) && r < m < n < |steps|
    requires steps[r] == Read(run) && steps[m] == Resume(run)
    requires Enabled(states[n], steps[n]) && Applies(states[n], steps[n]) && steps[n].run == run
    ensures states[n].stored == Some(states[n].runs[run].token) <==> !HasLoginOrLogout(steps, r, m)
  {
    EveryRunKeepsInv(states, steps, n);
    ReadRunStays(states, steps, r, m, m, run);
    if HasLoginOrLogout(steps, r, m) {
      var k :| r < k < m && IsLoginOrLogout(steps[k]);
      LoginsAndLogoutsStartAGeneration(states, steps, r, k, m);
    } else {
      GenerationWhileWaiting(states, steps, r, m, m, run);
    }
    ResumedRunStays(states, steps, m, n, run);
    assert states[m+1] == Resumed(states[m], run);
  }

  /** Such a run: a refresh of the previous session's token overwrites a login that landed during the read. */
  lemma LoginDuringReadIsOverwritten()
    ensures exists states: seq<State>, steps: seq<Step> ::
      IsRun(states, steps) && |steps| == 5 && steps[2] == Login(1) &&
      states[3].stored == Some(1) && states[5].stored == Some(2) && states[5].spent == {0}
  {
    var s0 := Launched(Some(0));
    var s1 := Next(s0, Call);
    var s2 := Next(s1, Read(0));
    var s3 := Next(s2, Login(1));
    var s4 := Next(s3, Resume(0));
    var s5 := Next(s4, Respond(0, Success(Some(2))));
    var states := [s0, s1, s2, s3, s4, s5];
    var steps := [Call, Read(0), Login(1), Resume(0), Respond(0, Success(Some(2)))];
    assert states[0] == Launched(Some(0));
    assert IsRun(states, steps);
  }
}
