/**
 * The mock sign-in and sign-out actions (src/auth.rs): they check the entered credentials,
 * log what happened and switch between the sign-in screen and the dashboard.
 */
module Auth {
  import opened Text
  import opened State

  /** The fields of `ObscuraState` that signing in and out read and write. */
  datatype SessionView = SessionView(state: AppState, email: string, password: string, logs: seq<string>)

  function SessionOf(s: ObscuraState): SessionView
    reads s
  {
    SessionView(s.state, s.email, s.password, s.logs)
  }

  /** The text holds a character that is not whitespace. */
  predicate NotBlank(s: string) {
    exists i :: 0 <= i < |s| && !IsWhitespace(s[i])
  }

  /**
   * The check `login` applies: neither the e-mail nor the password may be empty once
   * surrounding whitespace is trimmed. Any other credentials are accepted.
   */
  function Accepts(email: string, password: string): (ok: bool)
    ensures ok <==> NotBlank(email) && NotBlank(password)
  {
    TrimEmptyIffBlank(email);
    TrimEmptyIffBlank(password);
    !(Trim(email) == [] || Trim(password) == [])
  }

  const LoginFailedText := "Login failed: empty email or password"

  function LoggedInText(email: string): string {
    "User " + email + " logged in (mock)"
  }

  function LoggedOutText(email: string): string {
    "User " + email + " logged out"
  }

  /** `login`: the new session fields and the value returned. */
  function LoginResult(v: SessionView, now: nat): (SessionView, bool) {
    if !Accepts(v.email, v.password) then
      (v.(logs := Pushed(v.logs, now, LoginFailedText)), false)
    else
      (v.(logs := Pushed(v.logs, now, LoggedInText(v.email)), state := Dashboard), true)
  }

  /** `logout`: the new session fields. */
  function LogoutResult(v: SessionView, now: nat): SessionView {
    SessionView(Login, "", "", Pushed(v.logs, now, LoggedOutText(v.email)))
  }

  /**
   * Signing in succeeds exactly when both credentials hold a non-whitespace character; success
   * shows the dashboard, failure leaves the screen as it was; either way one line is logged
   * and the credentials are kept.
   */
  lemma LoginOutcome(v: SessionView, now: nat)
    ensures var (w, ok) := LoginResult(v, now);
      && (ok <==> NotBlank(v.email) && NotBlank(v.password))
      && (ok ==> w.state == Dashboard)
      && (!ok ==> w.state == v.state)
      && w.email == v.email && w.password == v.password
      && w.logs[|w.logs| - 1] == Entry(now, if ok then LoggedInText(v.email) else LoginFailedText)
  {
    PushedKeepsNewest(v.logs, now, LoginFailedText);
    PushedKeepsNewest(v.logs, now, LoggedInText(v.email));
  }

  /**
   * Signing out always returns to the sign-in screen with both credentials cleared, so that a
   * sign-in straight after it is refused and stays on that screen; its log line, the newest,
   * names the address as it was before it was cleared.
   */
  lemma LogoutBlocksLogin(v: SessionView, now: nat, later: nat)
    ensures var w := LogoutResult(v, now);
      && w.state == Login && w.email == [] && w.password == []
      && |w.logs| > 0 && w.logs[|w.logs| - 1] == Entry(now, LoggedOutText(v.email))
      && !LoginResult(w, later).1 && LoginResult(w, later).0.state == Login
  {
    var w := LogoutResult(v, now);
    PushedKeepsNewest(v.logs, now, LoggedOutText(v.email));
    assert !NotBlank(w.email);
  }

  /**
   * Below the cap, signing in and then out appends exactly the two lines, in that order.
   */
  lemma LoginLogoutLog(v: SessionView, now: nat, later: nat)
    requires |v.logs| + 2 <= MaxLogs && Accepts(v.email, v.password)
    ensures LogoutResult(LoginResult(v, now).0, later).logs
      == v.logs + [Entry(now, LoggedInText(v.email)), Entry(later, LoggedOutText(v.email))]
  {
    var w := LoginResult(v, now).0;
    assert w.logs == v.logs + [Entry(now, LoggedInText(v.email))] && w.email == v.email by {
      PushedKeepsNewest(v.logs, now, LoggedInText(v.email));
    }
    assert LogoutResult(w, later).logs == w.logs + [Entry(later, LoggedOutText(v.email))] by {
      PushedKeepsNewest(w.logs, later, LoggedOutText(v.email));
    }
  }

  /** `login`, with the clock reading `now` passed in. */
  method LoginAction(s: ObscuraState, now: nat) returns (ok: bool)
    modifies s
    ensures SessionOf(s) == LoginResult(old(SessionOf(s)), now).0
    ensures ok == LoginResult(old(SessionOf(s)), now).1
    ensures s.Run() == old(s.Run()).(logs := s.logs)
    ensures s.token == old(s.token) && s.authProcessing == old(s.authProcessing)
    ensures s.authRx == old(s.authRx) && s.lastAuthError == old(s.lastAuthError)
    ensures s.selectedFile == old(s.selectedFile)
    ensures s.encryptStrings == old(s.encryptStrings) && s.obfuscateFunctions == old(s.obfuscateFunctions)
  {
    ghost var v := SessionOf(s);
    if Trim(s.email) == [] || Trim(s.password) == [] {
      assert !Accepts(v.email, v.password);
      s.PushLog(now, LoginFailedText);
      assert SessionOf(s) == v.(logs := Pushed(v.logs, now, LoginFailedText));
      return false;
    }
    assert Accepts(v.email, v.password);
    s.PushLog(now, LoggedInText(s.email));
    s.state := Dashboard;
    assert SessionOf(s) == v.(logs := Pushed(v.logs, now, LoggedInText(v.email)), state := Dashboard);
    ok := true;
  }

  /** `logout`, with the clock reading `now` passed in. */
  method LogoutAction(s: ObscuraState, now: nat)
    modifies s
    ensures SessionOf(s) == LogoutResult(old(SessionOf(s)), now)
    ensures s.Run() == old(s.Run()).(logs := s.logs)
    ensures s.token == old(s.token) && s.authProcessing == old(s.authProcessing)
    ensures s.authRx == old(s.authRx) && s.lastAuthError == old(s.lastAuthError)
    ensures s.selectedFile == old(s.selectedFile)
    ensures s.encryptStrings == old(s.encryptStrings) && s.obfuscateFunctions == old(s.obfuscateFunctions)
  {
    s.PushLog(now, LoggedOutText(s.email));
    s.email := "";
    s.password := "";
    s.state := Login;
  }
}
