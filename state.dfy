/**
 * The application state the user interface reads and the host thread updates (src/state.rs):
 * the bounded activity log, the pipeline's progress and outcome, and the sign-in status.
 * Draining the pipeline and authentication channels is modelled over the messages that have
 * arrived when the host polls.
 */
module State {
  import opened Wrappers
  import opened Text
  import opened PipelineTypes

  datatype AppState = Login | Dashboard

  /** What the authentication worker reports: a session token, or why sign-in failed. */
  datatype AuthMsg = Success(token: string) | Error(message: string)

  /** The log keeps at most this many entries, dropping the oldest. */
  const MaxLogs: nat := 2000

  /** A log line: the seconds since the Unix epoch in brackets, then the message. */
  function Entry(now: nat, msg: string): string {
    "[" + Decimal(now) + "] " + msg
  }

  /** The newest `MaxLogs` entries of `s`. */
  function Capped(s: seq<string>): (r: seq<string>)
    ensures |r| == if |s| <= MaxLogs then |s| else MaxLogs
    ensures r == s[|s| - |r|..]
  {
    if |s| > MaxLogs then s[|s| - MaxLogs..] else s
  }

  /**
   * `push_log`: appends the stamped entry and drops the oldest entries beyond the cap, so the
   * log holds the newest entries, the new one last.
   */
  function Pushed(logs: seq<string>, now: nat, msg: string): seq<string> {
    Capped(logs + [Entry(now, msg)])
  }

  /**
   * After `push_log` the log holds at most `MaxLogs` entries, the new one last, preceded by the
   * newest of the earlier entries; below the cap nothing is dropped.
   */
  lemma PushedKeepsNewest(logs: seq<string>, now: nat, msg: string)
    ensures var r := Pushed(logs, now, msg);
      && 0 < |r| <= MaxLogs && r[|r| - 1] == Entry(now, msg)
      && (|logs| < MaxLogs ==> r == logs + [Entry(now, msg)])
      && (|logs| >= MaxLogs ==> |r| == MaxLogs && r[..MaxLogs - 1] == logs[|logs| - MaxLogs + 1..])
  {
  }

  /** `f32::clamp(0.0, 1.0)` (the channel never carries NaN here: progress is a real). */
  function Clamp(p: real): (r: real)
    ensures 0.0 <= r <= 1.0
    ensures 0.0 <= p <= 1.0 ==> r == p
    ensures p < 0.0 ==> r == 0.0
    ensures p > 1.0 ==> r == 1.0
  {
    if p < 0.0 then 0.0 else if p > 1.0 then 1.0 else p
  }

  // ---------------------------------------------------------------------------------------
  // Draining the pipeline channel
  // ---------------------------------------------------------------------------------------

  /**
   * The fields of `ObscuraState` that `poll_pipeline_messages` reads and writes. The receiver
   * and the cancel flag are represented by whether they are installed.
   */
  datatype RunView = RunView(
    logs: seq<string>,
    processing: bool,
    progress: real,
    pipelineRx: bool,
    lastOutput: Option<string>,
    cancelFlag: bool)

  /** The log never exceeds its cap and the progress bar stays within [0, 1]. */
  predicate RunValid(v: RunView) {
    |v.logs| <= MaxLogs && 0.0 <= v.progress <= 1.0
  }

  /** How the host handles one pipeline message; it has no arm for `Cancelled`. */
  function ApplyPipeline(v: RunView, now: nat, m: PipelineMessage): RunView {
    match m
    case Log(s) => v.(logs := Pushed(v.logs, now, s))
    case Progress(p) => v.(progress := Clamp(p))
    case Done(path) =>
      v.(logs := Pushed(v.logs, now, "Pipeline finished. Output: " + path),
         lastOutput := Some(path), processing := false, progress := 1.0, cancelFlag := false)
    case Error(e) =>
      v.(logs := Pushed(v.logs, now, "Pipeline error: " + e), processing := false, cancelFlag := false)
    case Cancelled => v
  }

  /** The messages handled one after the other, oldest first. */
  function ApplyPipelineAll(v: RunView, now: nat, ms: seq<PipelineMessage>): RunView
    decreases |ms|
  {
    if ms == [] then v
    else ApplyPipeline(ApplyPipelineAll(v, now, ms[..|ms| - 1]), now, ms[|ms| - 1])
  }

  /**
   * `poll_pipeline_messages`: with a receiver installed, takes it, handles every message that
   * has arrived and puts the receiver back only while the pipeline is still processing.
   */
  function PollPipeline(v: RunView, now: nat, arrived: seq<PipelineMessage>): RunView {
    if !v.pipelineRx then v
    else
      var w := ApplyPipelineAll(v.(pipelineRx := false), now, arrived);
      w.(pipelineRx := w.processing)
  }

  /** A message that ends the run as far as the host is concerned. */
  predicate Terminal(m: PipelineMessage) {
    m.Done? || m.Error?
  }

  /** The log lines the messages leave, in order: one per `Log`, `Done` and `Error`. */
  function LogLines(now: nat, ms: seq<PipelineMessage>): seq<string>
    decreases |ms|
  {
    if ms == [] then []
    else
      LogLines(now, ms[..|ms| - 1]) +
        match ms[|ms| - 1]
        case Log(s) => [Entry(now, s)]
        case Done(path) => [Entry(now, "Pipeline finished. Output: " + path)]
        case Error(e) => [Entry(now, "Pipeline error: " + e)]
        case _ => []
  }

  lemma {:induction false} ApplyPipelineAllValid(v: RunView, now: nat, ms: seq<PipelineMessage>)
    requires RunValid(v)
    ensures RunValid(ApplyPipelineAll(v, now, ms))
    decreases |ms|
  {
    if ms != [] {
      ApplyPipelineAllValid(v, now, ms[..|ms| - 1]);
    }
  }

  /** Polling keeps the log within its cap and the progress within [0, 1]. */
  lemma PollPipelineValid(v: RunView, now: nat, arrived: seq<PipelineMessage>)
    requires RunValid(v)
    ensures RunValid(PollPipeline(v, now, arrived))
  {
    ApplyPipelineAllValid(v.(pipelineRx := false), now, arrived);
  }

  /** Handling pipeline messages never starts processing nor installs a cancel flag or a receiver. */
  lemma {:induction false} ApplyPipelineAllFrame(v: RunView, now: nat, ms: seq<PipelineMessage>)
    ensures var w := ApplyPipelineAll(v, now, ms);
      && (w.processing ==> v.processing) && (w.cancelFlag ==> v.cancelFlag) && w.pipelineRx == v.pipelineRx
    decreases |ms|
  {
    if ms != [] {
      ApplyPipelineAllFrame(v, now, ms[..|ms| - 1]);
    }
  }

  lemma {:induction false} ApplyPipelineAllSplit(v: RunView, now: nat, a: seq<PipelineMessage>, b: seq<PipelineMessage>)
    ensures ApplyPipelineAll(v, now, a + b) == ApplyPipelineAll(ApplyPipelineAll(v, now, a), now, b)
    decreases |b|
  {
    if b != [] {
      assert (a + b)[..|a + b| - 1] == a + b[..|b| - 1];
      ApplyPipelineAllSplit(v, now, a, b[..|b| - 1]);
    } else {
      assert a + b == a;
    }
  }

  /**
   * A `Done` or an `Error` among the messages ends the run for the host: processing stops, the
   * cancel flag and the receiver are dropped, and no later message revives them.
   */
  lemma TerminalEndsRun(v: RunView, now: nat, arrived: seq<PipelineMessage>, i: nat)
    requires v.pipelineRx && i < |arrived| && Terminal(arrived[i])
    ensures var w := PollPipeline(v, now, arrived);
      !w.processing && !w.pipelineRx && !w.cancelFlag
  {
    var start := v.(pipelineRx := false);
    var a, b := arrived[..i + 1], arrived[i + 1..];
    assert a[|a| - 1] == arrived[i];
    TerminalLastStops(start, now, a);
    ApplyPipelineAllSplit(start, now, a, b);
    assert a + b == arrived;
    ApplyPipelineAllFrame(ApplyPipelineAll(start, now, a), now, b);
  }

  /** Handling messages that end with `Done` or `Error` leaves processing and the cancel flag off. */
  lemma TerminalLastStops(v: RunView, now: nat, a: seq<PipelineMessage>)
    requires |a| > 0 && Terminal(a[|a| - 1])
    ensures var u := ApplyPipelineAll(v, now, a);
      !u.processing && !u.cancelFlag
  {
  }

  lemma {:induction false} NoTerminalAll(v: RunView, now: nat, ms: seq<PipelineMessage>)
    requires forall i :: 0 <= i < |ms| ==> !Terminal(ms[i])
    ensures var w := ApplyPipelineAll(v, now, ms);
      w.processing == v.processing && w.cancelFlag == v.cancelFlag && w.lastOutput == v.lastOutput
    decreases |ms|
  {
    if ms != [] {
      NoTerminalAll(v, now, ms[..|ms| - 1]);
      assert !Terminal(ms[|ms| - 1]);
    }
  }

  /** Only a `Done` changes the last output the host shows. */
  lemma {:induction false} NoDoneKeepsOutput(v: RunView, now: nat, ms: seq<PipelineMessage>)
    requires forall i :: 0 <= i < |ms| ==> !ms[i].Done?
    ensures ApplyPipelineAll(v, now, ms).lastOutput == v.lastOutput
    decreases |ms|
  {
    if ms != [] {
      NoDoneKeepsOutput(v, now, ms[..|ms| - 1]);
      assert !ms[|ms| - 1].Done?;
    }
  }

  /**
   * While no `Done` or `Error` arrives, a processing run stays processing, keeps its receiver,
   * its cancel flag and its last output.
   */
  lemma NoTerminalKeepsListening(v: RunView, now: nat, arrived: seq<PipelineMessage>)
    requires v.pipelineRx && v.processing
    requires forall i :: 0 <= i < |arrived| ==> !Terminal(arrived[i])
    ensures var w := PollPipeline(v, now, arrived);
      && w.processing && w.pipelineRx && w.cancelFlag == v.cancelFlag && w.lastOutput == v.lastOutput
  {
    NoTerminalAll(v.(pipelineRx := false), now, arrived);
  }

  /**
   * Below the cap, the log gains exactly one line per `Log`, `Done` and `Error`, in arrival
   * order, with the texts the host formats; progress messages and `Cancelled` leave no line.
   */
  lemma {:induction false} LogsInArrivalOrder(v: RunView, now: nat, ms: seq<PipelineMessage>)
    requires |v.logs| + |ms| <= MaxLogs
    ensures ApplyPipelineAll(v, now, ms).logs == v.logs + LogLines(now, ms)
    ensures |LogLines(now, ms)| <= |ms|
    decreases |ms|
  {
    if ms != [] {
      var init := ms[..|ms| - 1];
      LogsInArrivalOrder(v, now, init);
      var u := ApplyPipelineAll(v, now, init);
      assert |u.logs| < MaxLogs;
      var extra := LogLines(now, ms)[|LogLines(now, init)|..];
      assert LogLines(now, ms) == LogLines(now, init) + extra;
      assert ApplyPipelineAll(v, now, ms).logs == u.logs + extra;
    }
  }

  /**
   * When the last message to arrive is `Done(path)`, the host shows that path as the last
   * output, a full progress bar and the finishing line as its newest log entry.
   */
  lemma DoneLast(v: RunView, now: nat, arrived: seq<PipelineMessage>, path: string)
    requires v.pipelineRx && arrived != [] && arrived[|arrived| - 1] == Done(path)
    ensures var w := PollPipeline(v, now, arrived);
      && w.lastOutput == Some(path) && w.progress == 1.0 && !w.processing && !w.pipelineRx
      && w.logs[|w.logs| - 1] == Entry(now, "Pipeline finished. Output: " + path)
  {
  }

  // ---------------------------------------------------------------------------------------
  // Draining the authentication channel
  // ---------------------------------------------------------------------------------------

  /** The fields of `ObscuraState` that `poll_auth_messages` reads and writes. */
  datatype AuthView = AuthView(
    logs: seq<string>,
    state: AppState,
    token: Option<string>,
    authProcessing: bool,
    authRx: bool,
    lastAuthError: Option<string>)

  /** How the host handles one authentication reply. */
  function ApplyAuth(v: AuthView, now: nat, m: AuthMsg): AuthView {
    match m
    case Success(tok) =>
      v.(logs := Pushed(v.logs, now, "Authentication successful"),
         token := Some(tok), state := Dashboard, authProcessing := false, lastAuthError := None)
    case Error(e) =>
      v.(logs := Pushed(v.logs, now, "Authentication failed: " + e), authProcessing := false, lastAuthError := Some(e))
  }

  function ApplyAuthAll(v: AuthView, now: nat, ms: seq<AuthMsg>): AuthView
    decreases |ms|
  {
    if ms == [] then v
    else ApplyAuth(ApplyAuthAll(v, now, ms[..|ms| - 1]), now, ms[|ms| - 1])
  }

  /**
   * `poll_auth_messages`: with a receiver installed, takes it, handles every reply that has
   * arrived and puts the receiver back only while sign-in is still in progress.
   */
  function PollAuth(v: AuthView, now: nat, arrived: seq<AuthMsg>): AuthView {
    if !v.authRx then v
    else
      var w := ApplyAuthAll(v.(authRx := false), now, arrived);
      w.(authRx := w.authProcessing)
  }

  /** Some reply in `ms` is a success. */
  predicate AnySuccess(ms: seq<AuthMsg>) {
    exists i :: 0 <= i < |ms| && ms[i].Success?
  }

  lemma AnySuccessSnoc(ms: seq<AuthMsg>)
    requires ms != []
    ensures AnySuccess(ms) <==> AnySuccess(ms[..|ms| - 1]) || ms[|ms| - 1].Success?
  {
    var init := ms[..|ms| - 1];
    if AnySuccess(ms) && !ms[|ms| - 1].Success? {
      var i :| 0 <= i < |ms| && ms[i].Success?;
      assert init[i] == ms[i];
    }
    if AnySuccess(init) {
      var i :| 0 <= i < |init| && init[i].Success?;
      assert ms[i] == init[i];
    }
  }

  /**
   * Handling replies keeps the log within its cap, ends the wait once any reply came, and
   * shows the dashboard exactly when it was already shown or some reply is a success.
   */
  lemma {:induction false} ApplyAuthAllFacts(v: AuthView, now: nat, ms: seq<AuthMsg>)
    ensures var w := ApplyAuthAll(v, now, ms);
      && (|v.logs| <= MaxLogs ==> |w.logs| <= MaxLogs)
      && (ms != [] ==> !w.authProcessing)
      && w.authRx == v.authRx
      && (w.state == Dashboard <==> v.state == Dashboard || AnySuccess(ms))
    decreases |ms|
  {
    if ms != [] {
      ApplyAuthAllFacts(v, now, ms[..|ms| - 1]);
      AnySuccessSnoc(ms);
    }
  }

  /**
   * Any reply ends the wait: sign-in is no longer in progress and the receiver is dropped. The
   * user reaches the dashboard exactly when they already were there or a reply was a success,
   * so polling never leaves the dashboard.
   */
  lemma AuthReplyEndsWait(v: AuthView, now: nat, arrived: seq<AuthMsg>)
    requires |v.logs| <= MaxLogs && v.authRx && arrived != []
    ensures var w := PollAuth(v, now, arrived);
      && |w.logs| <= MaxLogs && !w.authProcessing && !w.authRx
      && (w.state == Dashboard <==> v.state == Dashboard || AnySuccess(arrived))
  {
    ApplyAuthAllFacts(v.(authRx := false), now, arrived);
  }

  /**
   * The last reply decides what the host shows: a success leaves its token and no error, a
   * failure leaves its message as the last error; its log line is the newest.
   */
  lemma LastReplyDecides(v: AuthView, now: nat, arrived: seq<AuthMsg>)
    requires v.authRx && arrived != []
    ensures var w := PollAuth(v, now, arrived);
      var last := arrived[|arrived| - 1];
      && (last.Success? ==> w.token == Some(last.token) && w.lastAuthError == None && w.state == Dashboard)
      && (last.Error? ==> w.lastAuthError == Some(last.message))
      && w.logs[|w.logs| - 1] == Entry(now, if last.Success? then "Authentication successful" else "Authentication failed: " + last.message)
  {
  }

  // ---------------------------------------------------------------------------------------
  // The state object
  // ---------------------------------------------------------------------------------------

  /** `ObscuraState`: the one mutable state object the host thread owns. */
  class ObscuraState {
    var state: AppState
    var email: string
    var password: string
    var logs: seq<string>
    var selectedFile: Option<string>
    var encryptStrings: bool
    var obfuscateFunctions: bool
    var processing: bool
    var progress: real
    var pipelineRx: bool           // `pipeline_rx.is_some()`
    var lastOutput: Option<string>
    var cancelFlag: bool           // `cancel_flag.is_some()`
    var token: Option<string>
    var authProcessing: bool
    var authRx: bool               // `auth_rx.is_some()`
    var lastAuthError: Option<string>

    ghost predicate Valid()
      reads this
    {
      |logs| <= MaxLogs && 0.0 <= progress <= 1.0
    }

    function Run(): RunView
      reads this
    {
      RunView(logs, processing, progress, pipelineRx, lastOutput, cancelFlag)
    }

    function Auth(): AuthView
      reads this
    {
      AuthView(logs, state, token, authProcessing, authRx, lastAuthError)
    }

    /** `ObscuraState::new`: the sign-in screen, an empty log, both transformations enabled. */
    constructor ()
      ensures state == Login && email == "" && password == "" && selectedFile == None
      ensures encryptStrings && obfuscateFunctions
      ensures Run() == RunView([], false, 0.0, false, None, false)
      ensures Auth() == AuthView([], Login, None, false, false, None)
      ensures Valid()
    {
      state := Login;
      email, password := "", "";
      logs := [];
      selectedFile := None;
      encryptStrings, obfuscateFunctions := true, true;
      processing, progress := false, 0.0;
      pipelineRx, lastOutput, cancelFlag := false, None, false;
      token, authProcessing, authRx, lastAuthError := None, false, false, None;
    }

    /** `push_log`, with the clock reading `now` passed in. */
    method PushLog(now: nat, msg: string)
      modifies this
      ensures old(Valid()) ==> Valid()
      ensures logs == Pushed(old(logs), now, msg)
      ensures Run() == old(Run()).(logs := logs) && Auth() == old(Auth()).(logs := logs)
      ensures email == old(email) && password == old(password) && selectedFile == old(selectedFile)
      ensures encryptStrings == old(encryptStrings) && obfuscateFunctions == old(obfuscateFunctions)
    {
      logs := logs + [Entry(now, msg)];
      if |logs| > MaxLogs {
        var remove := |logs| - MaxLogs;
        logs := logs[remove..];
      }
    }

    /** One arm of the `match` in `poll_pipeline_messages`. */
    method HandlePipelineMessage(now: nat, m: PipelineMessage)
      modifies this
      ensures old(Valid()) ==> Valid()
      ensures Run() == ApplyPipeline(old(Run()), now, m)
      ensures state == old(state) && token == old(token) && authProcessing == old(authProcessing)
      ensures authRx == old(authRx) && lastAuthError == old(lastAuthError)
      ensures email == old(email) && password == old(password) && selectedFile == old(selectedFile)
      ensures encryptStrings == old(encryptStrings) && obfuscateFunctions == old(obfuscateFunctions)
    {
      match m {
        case Log(s) =>
          PushLog(now, s);
        case Progress(p) =>
          progress := Clamp(p);
        case Done(path) =>
          PushLog(now, "Pipeline finished. Output: " + path);
          lastOutput := Some(path);
          processing := false;
          progress := 1.0;
          cancelFlag := false;
        case Error(e) =>
          PushLog(now, "Pipeline error: " + e);
          processing := false;
          cancelFlag := false;
        case Cancelled =>
      }
    }

    /** `poll_pipeline_messages`, over the messages that have arrived since the last poll. */
    method PollPipelineMessages(now: nat, arrived: seq<PipelineMessage>)
      modifies this
      ensures old(Valid()) ==> Valid()
      ensures Run() == PollPipeline(old(Run()), now, arrived)
      ensures state == old(state) && token == old(token) && authProcessing == old(authProcessing)
      ensures authRx == old(authRx) && lastAuthError == old(lastAuthError)
      ensures email == old(email) && password == old(password) && selectedFile == old(selectedFile)
      ensures encryptStrings == old(encryptStrings) && obfuscateFunctions == old(obfuscateFunctions)
    {
      if !pipelineRx {
        return;
      }
      pipelineRx := false;
      ghost var start := Run();
      assert start == old(Run()).(pipelineRx := false);
      for i := 0 to |arrived|
        invariant Run() == ApplyPipelineAll(start, now, arrived[..i])
        invariant old(Valid()) ==> Valid()
        invariant state == old(state) && token == old(token) && authProcessing == old(authProcessing)
        invariant authRx == old(authRx) && lastAuthError == old(lastAuthError)
        invariant email == old(email) && password == old(password) && selectedFile == old(selectedFile)
        invariant encryptStrings == old(encryptStrings) && obfuscateFunctions == old(obfuscateFunctions)
      {
        assert arrived[..i + 1][..i] == arrived[..i];
        HandlePipelineMessage(now, arrived[i]);
      }
      assert arrived[..|arrived|] == arrived;
      assert Run() == ApplyPipelineAll(old(Run()).(pipelineRx := false), now, arrived);
      ApplyPipelineAllFrame(start, now, arrived);
      if processing {
        pipelineRx := true;
      }
    }

    /** One arm of the `match` in `poll_auth_messages`. */
    method HandleAuthMessage(now: nat, m: AuthMsg)
      modifies this
      ensures old(Valid()) ==> Valid()
      ensures Auth() == ApplyAuth(old(Auth()), now, m)
      ensures processing == old(processing) && progress == old(progress) && pipelineRx == old(pipelineRx)
      ensures lastOutput == old(lastOutput) && cancelFlag == old(cancelFlag)
      ensures email == old(email) && password == old(password) && selectedFile == old(selectedFile)
      ensures encryptStrings == old(encryptStrings) && obfuscateFunctions == old(obfuscateFunctions)
    {
      match m {
        case Success(tok) =>
          PushLog(now, "Authentication successful");
          token := Some(tok);
          state := Dashboard;
          authProcessing := false;
          lastAuthError := None;
        case Error(e) =>
          PushLog(now, "Authentication failed: " + e);
          authProcessing := false;
          lastAuthError := Some(e);
      }
    }

    /** `poll_auth_messages`, over the replies that have arrived since the last poll. */
    method PollAuthMessages(now: nat, arrived: seq<AuthMsg>)
      modifies this
      ensures old(Valid()) ==> Valid()
      ensures Auth() == PollAuth(old(Auth()), now, arrived)
      ensures processing == old(processing) && progress == old(progress) && pipelineRx == old(pipelineRx)
      ensures lastOutput == old(lastOutput) && cancelFlag == old(cancelFlag)
      ensures email == old(email) && password == old(password) && selectedFile == old(selectedFile)
      ensures encryptStrings == old(encryptStrings) && obfuscateFunctions == old(obfuscateFunctions)
    {
      if !authRx {
        return;
      }
      authRx := false;
      ghost var start := Auth();
      assert start == old(Auth()).(authRx := false);
      for i := 0 to |arrived|
        invariant Auth() == ApplyAuthAll(start, now, arrived[..i])
        invariant processing == old(processing) && progress == old(progress) && pipelineRx == old(pipelineRx)
        invariant lastOutput == old(lastOutput) && cancelFlag == old(cancelFlag)
        invariant email == old(email) && password == old(password) && selectedFile == old(selectedFile)
        invariant encryptStrings == old(encryptStrings) && obfuscateFunctions == old(obfuscateFunctions)
      {
        assert arrived[..i + 1][..i] == arrived[..i];
        HandleAuthMessage(now, arrived[i]);
      }
      assert arrived[..|arrived|] == arrived;
      assert Auth() == ApplyAuthAll(old(Auth()).(authRx := false), now, arrived);
      ApplyAuthAllFacts(start, now, arrived);
      if authProcessing {
        authRx := true;
      }
    }
  }
}
