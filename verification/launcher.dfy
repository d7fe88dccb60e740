/** One run of main.py `main` in its configured single-attempt mode
    (`MONITOR_MODE` is `False`): take the lock, stop if already online, obtain
    credentials from the config file or the first-run setup, run the bounded
    login loop, and release the lock on every path after it was taken. */
module Launcher {
  import opened Common
  import opened ProcessLock
  import opened CredentialStore
  import opened Portal
  import opened AttemptLoop

  /** Everything the run observes: lock file, clock and pid, the faults met
      while taking and releasing the lock, the initial probe, the config
      file, the setup answers and the loop's rounds. */
  datatype Environment = Environment(
    lock: Option<LockFile>, now: Timestamp, pid: int,
    lockFaults: LockFaults, releaseRaises: bool,
    probe: ProbeReply, config: ConfigFile, answers: SetupAnswers,
    rounds: seq<Round>)

  /** How the run ended. `LockRefused` is the "another instance is already
      running" exit, taken whenever `acquire_lock` answers `False`.
      `MissingField` is the `KeyError` raised when a loaded record lacks
      `username` or `password`. */
  datatype Exit = LockRefused | AlreadyOnline | SetupCancelled | MissingField | LoginSucceeded | GaveUp

  /** The exit, the lock file and config file left behind, the credentials
      used, and the rounds played. */
  datatype RunResult = RunResult(
    exit: Exit, lock: Option<LockFile>, config: ConfigFile,
    creds: Option<Credentials>, log: seq<RoundLog>)

  /** The credentials the run goes on with (if any), the config file after
      setup, and the exit the run takes when there are none (`None` while
      the run goes on). */
  datatype Provision = Provision(creds: Option<Credentials>, config: ConfigFile, exit: Option<Exit>)

  /** Where the credentials come from: a non-empty stored record, else the
      interactive setup. A stored record without both keys raises. */
  function ObtainCredentials(config: ConfigFile, answers: SetupAnswers): (r: Provision)
    ensures r.creds.None? <==> r.exit.Some?
    ensures r.exit.Some? ==> r.exit.value == SetupCancelled || r.exit.value == MissingField
    ensures HasRecord(Load(config)) ==> r.config == config && r.exit != Some(SetupCancelled)
    ensures HasRecord(Load(config)) ==>
      (r.creds.Some? <==> Fields(Load(config).value).Found?) &&
      (r.creds.Some? ==> Fields(Load(config).value) == Found(r.creds.value))
    ensures !HasRecord(Load(config)) ==> r.creds == Setup(config, answers).creds && r.config == Setup(config, answers).file
    ensures !HasRecord(Load(config)) ==> r.exit != Some(MissingField)
    ensures r.config != config ==>
      (r.creds.Some? && r.config == JsonObject(Record(r.creds.value))) || (r.creds.None? && r.config == Unparsable)
  {
    var loaded := Load(config);
    if !HasRecord(loaded) then
      var setup := Setup(config, answers);
      Provision(setup.creds, setup.file, if setup.creds.Some? then None else Some(SetupCancelled))
    else
      match Fields(loaded.value)
      case Found(c) => Provision(Some(c), config, None)
      case MissingKey => Provision(None, config, Some(MissingField))
  }

  /** The work done while the lock is held, as the run reports it. */
  datatype Session = Session(exit: Exit, config: ConfigFile, creds: Option<Credentials>, log: seq<RoundLog>)

  /** What `main` promises about the work done under the lock, given the
      credentials `provision` it obtains: nothing happens when the machine
      is already online; otherwise a missing credential ends the run with
      the reason it is missing, and the loop runs exactly when credentials
      were obtained, with those credentials, on the rounds in order,
      stopping at the first login, and its verdict decides the exit. */
  predicate SessionMeets(env: Environment, provision: Provision, s: Session) {
    ExitMeets(env, provision, s) && RecordMeets(env, provision, s)
  }

  /** How the session ends, and with which config file. */
  predicate ExitMeets(env: Environment, provision: Provision, s: Session) {
    && s.exit != LockRefused
    && (s.exit == AlreadyOnline <==> HasInternet(env.probe))
    && (s.exit == AlreadyOnline ==> s.config == env.config && s.log == [])
    && (s.exit != AlreadyOnline ==> s.config == provision.config)
    && (s.exit == SetupCancelled <==> !HasInternet(env.probe) && provision.exit == Some(SetupCancelled))
    && (s.exit == MissingField <==> !HasInternet(env.probe) && provision.exit == Some(MissingField))
    && ((s.exit == LoginSucceeded || s.exit == GaveUp) <==> |s.log| > 0)
  }

  /** The rounds the session played, and how they decide the exit. */
  predicate RecordMeets(env: Environment, provision: Provision, s: Session) {
    && |s.log| <= MaxAttempts
    && (|s.log| > 0 ==> s.creds.Some? && s.creds == provision.creds)
    && (|s.log| > 0 ==> PlayedInOrder(s.creds.value, env.rounds, s.log))
    && (|s.log| > 0 ==> NoneLoggedIn(s.log[..|s.log| - 1]))
    && (s.exit == LoginSucceeded ==> |s.log| > 0 && s.log[|s.log| - 1].verdict == LoggedIn)
    && (s.exit == GaveUp ==> |s.log| == MaxAttempts && NoneLoggedIn(s.log))
  }

  /** The promise about the session, with the credentials obtained from the
      run's config file and setup answers. */
  predicate SessionContract(env: Environment, s: Session) {
    SessionMeets(env, ObtainCredentials(env.config, env.answers), s)
  }

  /** Already online: the run ends before the credentials are looked at. */
  lemma OnlineSession(env: Environment, provision: Provision)
    requires HasInternet(env.probe)
    ensures SessionMeets(env, provision, Session(AlreadyOnline, env.config, None, []))
  {
  }

  /** Offline without credentials: the run ends with the reason. */
  lemma MissingCredentialsSession(env: Environment, provision: Provision)
    requires !HasInternet(env.probe) && provision.creds.None? && provision.exit.Some?
    requires provision.exit.value == SetupCancelled || provision.exit.value == MissingField
    ensures SessionMeets(env, provision, Session(provision.exit.value, provision.config, None, []))
  {
  }

  /** Offline with credentials: the loop's record decides the exit. */
  lemma LoopSession(env: Environment, provision: Provision, outcome: LoopOutcome, log: seq<RoundLog>)
    requires !HasInternet(env.probe) && provision.creds.Some? && provision.exit.None?
    requires 1 <= |log| <= MaxAttempts
    requires PlayedInOrder(provision.creds.value, env.rounds, log)
    requires NoneLoggedIn(log[..|log| - 1])
    requires outcome == Exhausted ==> |log| == MaxAttempts && NoneLoggedIn(log)
    requires outcome == Succeeded <==> log[|log| - 1].verdict == LoggedIn
    ensures SessionMeets(env, provision, LoopEnd(provision, log))
  {
    LoopExit(env, provision, log);
    LoopRecord(env, provision, outcome, log);
  }

  /** The session after the loop played `log`. */
  function LoopEnd(provision: Provision, log: seq<RoundLog>): Session
    requires |log| > 0
  {
    Session(if log[|log| - 1].verdict == LoggedIn then LoginSucceeded else GaveUp, provision.config, provision.creds, log)
  }

  lemma LoopExit(env: Environment, provision: Provision, log: seq<RoundLog>)
    requires !HasInternet(env.probe) && provision.exit.None? && |log| > 0
    ensures ExitMeets(env, provision, LoopEnd(provision, log))
  {
  }

  lemma LoopRecord(env: Environment, provision: Provision, outcome: LoopOutcome, log: seq<RoundLog>)
    requires provision.creds.Some?
    requires 1 <= |log| <= MaxAttempts
    requires PlayedInOrder(provision.creds.value, env.rounds, log)
    requires NoneLoggedIn(log[..|log| - 1])
    requires outcome == Exhausted ==> |log| == MaxAttempts && NoneLoggedIn(log)
    requires outcome == Succeeded <==> log[|log| - 1].verdict == LoggedIn
    ensures RecordMeets(env, provision, LoopEnd(provision, log))
  {
  }

  /** The body of `main` inside `try`: the connectivity check, the
      credentials, and the bounded loop. */
  method Authenticate(env: Environment) returns (s: Session)
    requires |env.rounds| >= MaxAttempts
    ensures SessionContract(env, s)
  {
    var provision := ObtainCredentials(env.config, env.answers);
    if HasInternet(env.probe) {
      OnlineSession(env, provision);
      return Session(AlreadyOnline, env.config, None, []);
    }
    if provision.creds.None? {
      MissingCredentialsSession(env, provision);
      return Session(provision.exit.value, provision.config, None, []);
    }
    var outcome, log := RunAttempts(provision.creds.value, env.rounds);
    LoopSession(env, provision, outcome, log);
    s := LoopEnd(provision, log);
  }

  /** `main()` in single-attempt mode: the lock is taken first. A run that
      cannot take it does nothing else, and leaves the lock file as the
      failed attempt left it; a lock younger than 120 seconds is never touched. A
      run that took the lock tries to remove it on every path (the
      `finally` clause); only a raising removal leaves it behind. */
  method RunOnce(env: Environment) returns (r: RunResult)
    requires |env.rounds| >= MaxAttempts
    ensures r.exit == LockRefused <==> !Acquire(env.lock, env.now, env.pid, env.lockFaults).acquired
    ensures Held(env.lock, env.now) ==> r.exit == LockRefused && r.lock == env.lock
    ensures r.exit == LockRefused ==>
      r.lock == Acquire(env.lock, env.now, env.pid, env.lockFaults).lock && r.config == env.config && r.log == []
    ensures r.exit != LockRefused ==> (r.lock.None? <==> !env.releaseRaises)
    ensures r.exit != LockRefused && r.lock.Some? ==> r.lock == Some(LockFile(Some(env.pid), env.now))
    ensures r.exit != LockRefused ==> SessionContract(env, Session(r.exit, r.config, r.creds, r.log))
  {
    var acquisition := Acquire(env.lock, env.now, env.pid, env.lockFaults);
    if !acquisition.acquired {
      return RunResult(LockRefused, acquisition.lock, env.config, None, []);
    }
    var session := Authenticate(env);
    r := RunResult(session.exit, Release(acquisition.lock, env.releaseRaises), session.config, session.creds, session.log);
  }
}
