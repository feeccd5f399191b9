/** The session bookkeeping of `webuntis_login`, `webuntis_logout` and
    `_async_status_request`: `_loged_in`, the `updating` counter of update
    cycles holding the session, and the once-only failure flag. Remote calls
    appear as their outcomes, given as inputs. */
module Session {
  /** The exception text the backend reports for a wrong password. */
  const BadCredentials: string := "bad credentials"

  datatype SessionState = SessionState(loggedIn: bool, updating: int, lastFailed: bool)

  /** The state of a freshly created `WebUntis` object. */
  const Initial: SessionState := SessionState(false, 0, false)

  /** What checking a held session finds: no session id in the client's
      configuration, a `schoolyears()` call that succeeds, one that raises
      `NotLoggedInError`, or one that raises anything else (not caught). */
  datatype Probe = NoSessionId | SessionValid | NotLoggedIn | ProbeRaises

  /** How `session.login()` ends. */
  datatype Attempt = LoginOk | LoginOSError(message: string) | LoginOtherError

  /** How `webuntis_login` ends: True, a falsy return (with whether the
      derived values were reset and whether the bad-credentials repair issue
      was raised), or an exception that leaves the method. */
  datatype LoginResult =
    | LoggedIn(state: SessionState)
    | Refused(state: SessionState, clearsValues: bool, credentialsIssue: bool)
    | Raised(state: SessionState)

  /** A session is held and the probe confirms it. */
  predicate HeldSessionValid(s: SessionState, probe: Probe)
  {
    s.loggedIn && probe == SessionValid
  }

  /** No session is held, or the probe found it gone: a login is attempted. */
  predicate MustLogIn(s: SessionState, probe: Probe)
  {
    !s.loggedIn || probe == NoSessionId || probe == NotLoggedIn
  }

  /** `webuntis_login`. The probe is consulted only when a session is held,
      the login attempt only when none is held after the probe. */
  function Login(s: SessionState, probe: Probe, attempt: Attempt): (r: LoginResult)
    ensures r.LoggedIn? ==> r.state == s.(loggedIn := true, updating := s.updating + 1)
    ensures !r.LoggedIn? ==> r.state.updating == s.updating
    ensures r.LoggedIn? <==> HeldSessionValid(s, probe) || (MustLogIn(s, probe) && attempt.LoginOk?)
    ensures r.Raised? <==> s.loggedIn && probe == ProbeRaises
    ensures r.Raised? ==> r.state == s
    ensures r.Refused? ==> !r.state.loggedIn && r.state.lastFailed
    ensures r.Refused? ==> (r.clearsValues <==> attempt.LoginOSError?)
    ensures r.Refused? ==> (r.credentialsIssue <==> attempt == LoginOSError(BadCredentials))
  {
    if s.loggedIn && probe == SessionValid then LoggedIn(s.(updating := s.updating + 1))
    else if s.loggedIn && probe == ProbeRaises then Raised(s)
    else
      var dropped := s.(loggedIn := false);
      match attempt
      case LoginOk => LoggedIn(dropped.(loggedIn := true, updating := s.updating + 1))
      case LoginOSError(message) => Refused(dropped.(lastFailed := true), true, message == BadCredentials)
      case LoginOtherError => Refused(dropped.(lastFailed := true), false, false)
  }

  /** How `webuntis_logout` ends: the new state, and whether it released the
      remote session with `session.logout()`. */
  datatype LogoutResult = LogoutResult(state: SessionState, released: bool)

  /** `webuntis_logout`: one cycle stops holding the session; the last one
      releases it unless the session is to be kept. */
  function Logout(s: SessionState, keepLoggedIn: bool): (r: LogoutResult)
    ensures r.state.updating == s.updating - 1
    ensures r.state.lastFailed == s.lastFailed
    ensures r.released <==> !keepLoggedIn && s.updating == 1
    ensures r.state.loggedIn == (s.loggedIn && !r.released)
  {
    var updating := s.updating - 1;
    if !keepLoggedIn && updating == 0 then LogoutResult(s.(updating := updating, loggedIn := false), true)
    else LogoutResult(s.(updating := updating), false)
  }

  /** How the `schoolyears()` request at the start of a cycle ends: a valid
      school year, none, an `OSError` (logged, the cycle goes on), or any
      other exception (not caught). */
  datatype YearCheck = YearValid | YearInvalid | YearOSError | YearRaises

  /** The remote outcomes one update cycle meets. `bodyRaises` says whether
      one of the property updates after the school-year check raises
      something other than `OSError`, which its `except OSError` does not
      catch. */
  datatype CycleInput = CycleInput(probe: Probe, attempt: Attempt, year: YearCheck, bodyRaises: bool)

  /** The state after one cycle, whether an exception left it, and whether
      it released the remote session. */
  datatype CycleResult = CycleResult(state: SessionState, escaped: bool, released: bool)

  /** A cycle that logged in meets an exception its handlers do not catch. */
  predicate EscapesAfterLogin(input: CycleInput)
  {
    input.year == YearRaises || (input.year != YearInvalid && input.bodyRaises)
  }

  /** `_async_status_request` as written: logout is called on the
      invalid-school-year path (which also records the failure) and at the
      end of the body, but not when an exception other than `OSError` leaves
      the body. */
  function StatusRequest(s: SessionState, keepLoggedIn: bool, input: CycleInput): (r: CycleResult)
    ensures !(Login(s, input.probe, input.attempt).LoggedIn? && EscapesAfterLogin(input)) ==>
              r.state.updating == s.updating
    ensures Login(s, input.probe, input.attempt).LoggedIn? && EscapesAfterLogin(input) ==>
              r.state.updating == s.updating + 1 && r.state.loggedIn && !r.released
    ensures r.escaped <==> Login(s, input.probe, input.attempt).Raised?
                           || (Login(s, input.probe, input.attempt).LoggedIn? && EscapesAfterLogin(input))
    ensures Login(s, input.probe, input.attempt).LoggedIn? && input.year == YearInvalid ==> r.state.lastFailed
  {
    match Login(s, input.probe, input.attempt)
    case Raised(s1) => CycleResult(s1, true, false)
    case Refused(s1, _, _) => CycleResult(s1, false, false)
    case LoggedIn(s1) =>
      if input.year == YearInvalid then
        var out := Logout(s1.(lastFailed := true), keepLoggedIn);
        CycleResult(out.state, false, out.released)
      else if EscapesAfterLogin(input) then CycleResult(s1, true, false)
      else
        var out := Logout(s1, keepLoggedIn);
        CycleResult(out.state, false, out.released)
  }

  /** `_async_status_request` with the logout of a cycle that logged in
      placed in a `finally` clause: every successful login is paired with
      one logout, whichever way the cycle ends. */
  function StatusRequestPaired(s: SessionState, keepLoggedIn: bool, input: CycleInput): (r: CycleResult)
    ensures r.state.updating == s.updating
    ensures r.escaped <==> Login(s, input.probe, input.attempt).Raised?
                           || (Login(s, input.probe, input.attempt).LoggedIn? && EscapesAfterLogin(input))
    ensures r.released <==>
              Login(s, input.probe, input.attempt).LoggedIn? && !keepLoggedIn && s.updating == 0
  {
    match Login(s, input.probe, input.attempt)
    case Raised(s1) => CycleResult(s1, true, false)
    case Refused(s1, _, _) => CycleResult(s1, false, false)
    case LoggedIn(s1) =>
      var out := Logout(if input.year == YearInvalid then s1.(lastFailed := true) else s1, keepLoggedIn);
      CycleResult(out.state, EscapesAfterLogin(input), out.released)
  }

  /** The two agree on every cycle that no uncaught exception leaves after a
      successful login. */
  lemma PairedAgreesWhenNothingEscapes(s: SessionState, keepLoggedIn: bool, input: CycleInput)
    requires !(Login(s, input.probe, input.attempt).LoggedIn? && EscapesAfterLogin(input))
    ensures StatusRequestPaired(s, keepLoggedIn, input) == StatusRequest(s, keepLoggedIn, input)
  {
  }

  /** Cycles run one after another, with the as-written or the paired
      status request. */
  function RunCycles(s: SessionState, keepLoggedIn: bool, inputs: seq<CycleInput>, paired: bool): (r: SessionState)
    decreases |inputs|
  {
    if |inputs| == 0 then s
    else
      var step := if paired then StatusRequestPaired(s, keepLoggedIn, inputs[0])
                  else StatusRequest(s, keepLoggedIn, inputs[0]);
      RunCycles(step.state, keepLoggedIn, inputs[1..], paired)
  }

  /** With the paired request the counter comes back to where it started
      after any run of cycles, however they end. */
  lemma {:induction false} PairedCyclesBalance(s: SessionState, keepLoggedIn: bool, inputs: seq<CycleInput>)
    ensures RunCycles(s, keepLoggedIn, inputs, true).updating == s.updating
    decreases |inputs|
  {
    if |inputs| > 0 {
      PairedCyclesBalance(StatusRequestPaired(s, keepLoggedIn, inputs[0]).state, keepLoggedIn, inputs[1..]);
    }
  }

  /** As written, the counter comes back after any run of cycles in which no
      uncaught exception follows a successful login. */
  lemma {:induction false} CyclesBalanceWithoutEscapes(s: SessionState, keepLoggedIn: bool, inputs: seq<CycleInput>)
    requires forall i :: 0 <= i < |inputs| ==> !EscapesAfterLogin(inputs[i])
    ensures RunCycles(s, keepLoggedIn, inputs, false).updating == s.updating
    decreases |inputs|
  {
    if |inputs| > 0 {
      CyclesBalanceWithoutEscapes(StatusRequest(s, keepLoggedIn, inputs[0]).state, keepLoggedIn, inputs[1..]);
    }
  }

  /** As written, once a counter is above zero no cycle brings it back to
      zero: every cycle leaves it the same or one higher. */
  lemma {:induction false} LeakedCounterStays(s: SessionState, keepLoggedIn: bool, inputs: seq<CycleInput>)
    ensures RunCycles(s, keepLoggedIn, inputs, false).updating >= s.updating
    decreases |inputs|
  {
    if |inputs| > 0 {
      LeakedCounterStays(StatusRequest(s, keepLoggedIn, inputs[0]).state, keepLoggedIn, inputs[1..]);
    }
  }

  /** The discrepancy on a concrete run, from a new object with the session
      not kept: the first cycle logs in and then a property update raises a
      non-`OSError` exception, so its logout never happens; in the second,
      clean cycle the logout brings the counter back only to 1, the remote
      session is not released and `_loged_in` stays set. With the logout in
      a `finally` clause both cycles release the session. */
  lemma EscapeSkipsLogout()
    ensures var first := StatusRequest(Initial, false, CycleInput(NoSessionId, LoginOk, YearValid, true));
            var second := StatusRequest(first.state, false, CycleInput(SessionValid, LoginOk, YearValid, false));
            && first.escaped && first.state.updating == 1
            && !second.released && second.state.updating == 1 && second.state.loggedIn
    ensures var first := StatusRequestPaired(Initial, false, CycleInput(NoSessionId, LoginOk, YearValid, true));
            var second := StatusRequestPaired(first.state, false, CycleInput(NoSessionId, LoginOk, YearValid, false));
            && first.escaped && first.released && first.state == Initial
            && second.released && second.state == Initial
  {
  }

  /** With the paired request and the session not kept, a run that starts
      from a released session ends with it released again. */
  lemma {:induction false} PairedCyclesRelease(s: SessionState, inputs: seq<CycleInput>)
    requires s.updating == 0 && !s.loggedIn
    ensures RunCycles(s, false, inputs, true).updating == 0
    ensures !RunCycles(s, false, inputs, true).loggedIn
    decreases |inputs|
  {
    if |inputs| > 0 {
      var step := StatusRequestPaired(s, false, inputs[0]);
      assert !step.state.loggedIn;
      PairedCyclesRelease(step.state, inputs[1..]);
    }
  }
}
