/**
 * What each event does to the session, over every interleaving
 * (farcaster-audio/services/authRefresh.ts, farcaster-audio/stores/authStore.ts).
 */
module AuthEffects {
  import opened Options
  import opened AuthRefresh

  predicate IsSignedIn(s: State, token: Token) {
    s.stored == Some(token) && s.session == Some(token) && s.isAuthenticated
  }

  predicate IsSignedOut(s: State) {
    s.stored == None && s.session == None && !s.isAuthenticated
  }

  /** Logins sign in and logouts sign out, each with a new generation; neither touches the run in flight. */
  lemma LoginsAndLogoutsTakeEffect(states: seq<State>, steps: seq<Step>, n: nat)
    requires IsRun(states, steps) && n < |steps| && IsLoginOrLogout(steps[n])
    ensures var s, t := states[n], states[n+1];
      (if steps[n].Login? then IsSignedIn(t, steps[n].token) else IsSignedOut(t)) &&
      t.sessionGen == s.sessionGen + 1 && t.inFlight == s.inFlight && t.runs == s.runs
  {
  }

  /** A launch signs in with the stored token exactly when one is stored with a profile. */
  lemma HydrationRestores(states: seq<State>, steps: seq<Step>, n: nat)
    requires IsRun(states, steps) && n < |steps| && steps[n].Hydrate?
    ensures var s, t := states[n], states[n+1];
      if s.stored.Some? && steps[n].hasProfile then
        IsSignedIn(t, s.stored.value) && t.sessionGen == s.sessionGen
      else t == s
  {
  }

  /** A caller starts a run if none is under way; the run reads what storage holds; the slot is freed at its end. */
  lemma CallersShareOneRun(states: seq<State>, steps: seq<Step>, n: nat)
    requires IsRun(states, steps) && n < |steps|
    ensures var s, t := states[n], states[n+1];
      (steps[n].Call? && s.inFlight == None ==>
        t.inFlight == Some(s.runsStarted) && t.runs == map[s.runsStarted := Reading] &&
        t.runsStarted == s.runsStarted + 1 && SameSession(s, t)) &&
      (steps[n].Call? && s.inFlight != None ==> t == s) &&
      (steps[n].Read? ==>
        SameSession(s, t) && t.runs[steps[n].run] == HasRead(s.stored, s.sessionGen)) &&
      (steps[n].Finalize? ==> SameSession(s, t) && t.inFlight == None && t.runs == map[])
  {
    EveryRunKeepsInv(states, steps, n);
    assert Enabled(states[n], steps[n]);
    if steps[n].Finalize? {
      assert (states[n].runs - {steps[n].run}).Keys == {};
    }
    if steps[n].Call? && states[n].inFlight == None {
      assert states[n].runs.Keys == {};
      assert states[n].runs == map[];
    }
  }

  /** With nothing stored a run signs out; otherwise it posts what it read, under the generation of that moment. */
  lemma ResumingPostsOrSignsOut(states: seq<State>, steps: seq<Step>, n: nat)
    requires IsRun(states, steps) && n < |steps| && steps[n].Resume?
    ensures var s, t, run := states[n], states[n+1], steps[n].run;
      match s.runs[run].found
      case None => IsSignedOut(t) && t.runs[run] == Settled && t.posted == s.posted
      case Some(token) =>
        SameSession(s, t) && t.posted == s.posted + {token} &&
        t.runs[run].Posting? && t.runs[run].token == token && t.runs[run].startGen == s.sessionGen
  {
    assert Enabled(states[n], steps[n]);
  }

  /** Until its response a run keeps what it posted. */
  lemma {:induction false} PostedRunStays(states: seq<State>, steps: seq<Step>, m: nat, t: nat, n: nat, run: nat)
    requires IsRun(states, steps) && m < t <= n < |steps|
    requires steps[m] == Resume(run) && steps[n].Respond? && steps[n].run == run
    ensures run in states[t].runs && states[t].runs[run].Posting? && states[t].runs[run] == states[n].runs[run]
    decreases n - t
  {
    assert Enabled(states[n], steps[n]);
    if t < n {
      PostedRunStays(states, steps, m, t + 1, n, run);
      ResumedRunStays(states, steps, m, t, run);
      StepAfterResuming(states[t], steps[t], run);
      assert Enabled(states[t], steps[t]);
    }
  }

  lemma WaitingStepKeepsGeneration(s: State, step: Step, run: nat)
    requires Inv(s) && Enabled(s, step) && !IsLoginOrLogout(step)
    requires run in s.runs && s.runs[run].Posting?
    requires run in Next(s, step).runs && Next(s, step).runs[run].Posting?
    ensures Next(s, step).sessionGen == s.sessionGen
  {
  }

  lemma {:induction false} GenerationWhilePosted(states: seq<State>, steps: seq<Step>, m: nat, t: nat, n: nat, run: nat)
    requires IsRun(states, steps) && m < t <= n < |steps|
    requires steps[m] == Resume(run) && steps[n].Respond? && steps[n].run == run
    requires forall k :: m < k < n ==> !IsLoginOrLogout(steps[k])
    ensures states[t].sessionGen == states[m].sessionGen
  {
    if t == m + 1 {
      PostedRunStays(states, steps, m, t, n, run);
      ResumingPostsOrSignsOut(states, steps, m);
    } else {
      GenerationWhilePosted(states, steps, m, t - 1, n, run);
      PostedRunStays(states, steps, m, t - 1, n, run);
      PostedRunStays(states, steps, m, t, n, run);
      EveryRunKeepsInv(states, steps, t - 1);
      assert Enabled(states[t-1], steps[t-1]);
      WaitingStepKeepsGeneration(states[t-1], steps[t-1], run);
    }
  }

  /**
   * A response with no login or logout since the token was posted is acted on:
   * a rejection signs out, new tokens are stored and signed in with, anything
   * else leaves the session for the next try.
   */
  lemma CurrentResponseIsActedOn(states: seq<State>, steps: seq<Step>, m: nat, n: nat, run: nat)
    requires IsRun(states, steps) && m < n < |steps|
    requires steps[m] == Resume(run) && steps[n].Respond? && steps[n].run == run
    requires forall k :: m < k < n ==> !IsLoginOrLogout(steps[k])
    ensures var s, t := states[n], states[n+1];
      run in t.runs && t.runs[run] == Settled &&
      match steps[n].response
      case AuthRejected => IsSignedOut(t) && t.sessionGen == s.sessionGen + 1
      case Success(Some(token)) => IsSignedIn(t, token) && t.sessionGen == s.sessionGen
      case Success(None) => SameSession(s, t)
      case Transient => SameSession(s, t)
  {
    PostedRunStays(states, steps, m, m + 1, n, run);
    ResumingPostsOrSignsOut(states, steps, m);
    GenerationWhilePosted(states, steps, m, n, n, run);
    assert Enabled(states[n], steps[n]);
  }
}
