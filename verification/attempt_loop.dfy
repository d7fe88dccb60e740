/** The single-attempt mode of main.py `main`: at most five rounds, each
    reading the current network and, on a college network, attempting a
    login. Every round counts against the five, whatever it ends in. The
    per-round observations (SSID, clock, probe and portal answers) are
    given as a sequence. */
module AttemptLoop {
  import opened Common
  import opened Networks
  import opened CredentialStore
  import opened Portal

  /** `max_attempts` of main.py. */
  const MaxAttempts: nat := 5

  /** Seconds slept after a round without a usable network. */
  const NetworkWait: nat := 5

  /** Seconds slept after a failed login. */
  const RetryWait: nat := 10

  /** What the outside world shows in one round. */
  datatype Round = Round(ssid: Option<string>, now: Timestamp, probe: ProbeReply, portal: PortalOracle)

  /** How a round ended. */
  datatype Verdict = NoNetwork | ForeignNetwork | LoginFailed | LoggedIn

  /** One round as it happened: its verdict, the portal POST it sent, if any,
      and the pause before the next round. */
  datatype RoundLog = RoundLog(verdict: Verdict, sent: Option<PortalRequest>, pause: nat)

  datatype LoopOutcome = Succeeded | Exhausted

  /** One iteration of the loop body. */
  function PlayRound(c: Credentials, r: Round): (log: RoundLog)
    ensures log.verdict == NoNetwork <==> !Connected(r.ssid)
    ensures log.verdict == ForeignNetwork <==> Connected(r.ssid) && !IsCollegeNetwork(r.ssid.value)
    ensures (log.verdict == LoginFailed || log.verdict == LoggedIn) <==>
      Connected(r.ssid) && IsCollegeNetwork(r.ssid.value)
    ensures log.verdict == LoggedIn <==>
      Connected(r.ssid) && IsCollegeNetwork(r.ssid.value) && AttemptLogin(c, r.now, r.probe, r.portal).success
    ensures log.sent.Some? <==> Connected(r.ssid) && IsCollegeNetwork(r.ssid.value) && !HasInternet(r.probe)
    ensures Connected(r.ssid) && IsCollegeNetwork(r.ssid.value) ==>
      log.sent == AttemptLogin(c, r.now, r.probe, r.portal).sent
    ensures log.sent.Some? ==> log.sent.value.form == LoginForm(c, r.now)
    ensures log.pause == (match log.verdict
      case NoNetwork => NetworkWait
      case ForeignNetwork => NetworkWait
      case LoginFailed => RetryWait
      case LoggedIn => 0)
  {
    if !Connected(r.ssid) then
      RoundLog(NoNetwork, None, NetworkWait)
    else if !IsCollegeNetwork(r.ssid.value) then
      RoundLog(ForeignNetwork, None, NetworkWait)
    else
      var attempt := AttemptLogin(c, r.now, r.probe, r.portal);
      if attempt.success then RoundLog(LoggedIn, attempt.sent, 0)
      else RoundLog(LoginFailed, attempt.sent, RetryWait)
  }

  /** `log` records the first `|log|` rounds, played in order with `c`. */
  predicate PlayedInOrder(c: Credentials, rounds: seq<Round>, log: seq<RoundLog>) {
    |log| <= |rounds| && forall i :: 0 <= i < |log| ==> log[i] == PlayRound(c, rounds[i])
  }

  /** No round of `log` logged in. */
  predicate NoneLoggedIn(log: seq<RoundLog>) {
    forall i :: 0 <= i < |log| ==> log[i].verdict != LoggedIn
  }

  /** Playing the next round extends the record by that round. */
  lemma PlayNext(c: Credentials, rounds: seq<Round>, log: seq<RoundLog>, played: RoundLog)
    requires PlayedInOrder(c, rounds, log) && |log| < |rounds|
    requires played == PlayRound(c, rounds[|log|])
    ensures PlayedInOrder(c, rounds, log + [played])
  {
    var next := log + [played];
    assert next[|log|] == played;
    assert forall i :: 0 <= i < |log| ==> next[i] == log[i];
  }

  /** A failed round keeps the record free of logins. */
  lemma FailNext(log: seq<RoundLog>, played: RoundLog)
    requires NoneLoggedIn(log) && played.verdict != LoggedIn
    ensures NoneLoggedIn(log + [played])
  {
    var next := log + [played];
    forall i | 0 <= i < |next|
      ensures next[i].verdict != LoggedIn
    {
      if i < |log| {
        assert next[i] == log[i];
      }
    }
  }

  /** The `for attempt in range(1, max_attempts + 1)` loop: rounds are played
      in order until one logs in or five have been played. */
  method RunAttempts(c: Credentials, rounds: seq<Round>) returns (outcome: LoopOutcome, log: seq<RoundLog>)
    requires |rounds| >= MaxAttempts
    ensures 1 <= |log| <= MaxAttempts
    ensures PlayedInOrder(c, rounds, log)
    ensures NoneLoggedIn(log[..|log| - 1])
    ensures outcome == Succeeded <==> log[|log| - 1].verdict == LoggedIn
    ensures outcome == Exhausted ==> |log| == MaxAttempts && NoneLoggedIn(log)
  {
    log := [];
    var attempt := 0;
    while attempt < MaxAttempts
      invariant 0 <= attempt <= MaxAttempts
      invariant |log| == attempt
      invariant PlayedInOrder(c, rounds, log)
      invariant NoneLoggedIn(log)
    {
      var played := PlayRound(c, rounds[attempt]);
      PlayNext(c, rounds, log, played);
      if played.verdict == LoggedIn {
        assert (log + [played])[..attempt] == log;
        return Succeeded, log + [played];
      }
      FailNext(log, played);
      log := log + [played];
      attempt := attempt + 1;
    }
    assert log[|log| - 1].verdict != LoggedIn;
    outcome := Exhausted;
  }
}
