/** The monitoring mode of main.py (`monitor_wifi_changes`): a poll loop that
    fires a login when the connected network changes to a college network,
    at most once per network per cooldown window. One poll is a pure step on
    the state `(last_wifi, last_login_attempt)`; a run is a sequence of polls. */
module Monitor {
  import opened Common
  import opened Networks

  /** Seconds within which a repeated login on the same network is skipped. */
  const Cooldown: real := 60.0

  /** `last_wifi` and the `last_login_attempt` dictionary. */
  datatype MonitorState = MonitorState(lastWifi: Option<string>, lastAttempt: map<string, Timestamp>)

  /** The state before the first poll: no network seen, no attempt made. */
  const Start: MonitorState := MonitorState(None, map[])

  /** One poll: the SSID read, the clock when the cooldown is checked, and the
      clock read after the login attempt returned (the time that is stored). */
  datatype Tick = Tick(ssid: Option<string>, now: Timestamp, stamp: Timestamp)

  /** The state after a poll and whether `attempt_login` was called. */
  datatype StepResult = StepResult(next: MonitorState, fired: bool)

  /** `last_login_attempt.get(ssid, 0)`. */
  function LastAttemptAt(attempts: map<string, Timestamp>, ssid: string): Timestamp {
    if ssid in attempts then attempts[ssid] else 0.0
  }

  /** One iteration of the monitoring loop. */
  function Step(s: MonitorState, t: Tick): (r: StepResult)
    ensures r.fired <==>
      && t.ssid != s.lastWifi
      && Connected(t.ssid)
      && IsCollegeNetwork(t.ssid.value)
      && t.now - LastAttemptAt(s.lastAttempt, t.ssid.value) > Cooldown
    ensures r.next.lastWifi == t.ssid
    ensures r.fired ==> r.next.lastAttempt == s.lastAttempt[t.ssid.value := t.stamp]
    ensures !r.fired ==> r.next.lastAttempt == s.lastAttempt
  {
    if t.ssid == s.lastWifi then
      StepResult(s, false)
    else if Connected(t.ssid) && IsCollegeNetwork(t.ssid.value)
      && t.now - LastAttemptAt(s.lastAttempt, t.ssid.value) > Cooldown
    then
      StepResult(MonitorState(t.ssid, s.lastAttempt[t.ssid.value := t.stamp]), true)
    else
      StepResult(MonitorState(t.ssid, s.lastAttempt), false)
  }

  /** The state after the first `k` polls. */
  function StateAfter(s0: MonitorState, ticks: seq<Tick>, k: nat): MonitorState
    requires k <= |ticks|
    decreases k
  {
    if k == 0 then s0 else Step(StateAfter(s0, ticks, k - 1), ticks[k - 1]).next
  }

  /** Poll `k` fired a login on network `x`. */
  predicate FiredOn(s0: MonitorState, ticks: seq<Tick>, k: nat, x: string)
    requires k < |ticks|
  {
    Step(StateAfter(s0, ticks, k), ticks[k]).fired && ticks[k].ssid == Some(x)
  }

  /** The dictionary remembers, for each network, the time stored by its most
      recent fired login. */
  lemma {:induction false} RecordsLastFire(s0: MonitorState, ticks: seq<Tick>, i: nat, k: nat, x: string)
    requires i < k <= |ticks|
    requires FiredOn(s0, ticks, i, x)
    requires forall m :: i < m < k ==> !FiredOn(s0, ticks, m, x)
    ensures x in StateAfter(s0, ticks, k).lastAttempt
    ensures StateAfter(s0, ticks, k).lastAttempt[x] == ticks[i].stamp
    decreases k
  {
    assert StateAfter(s0, ticks, k) == Step(StateAfter(s0, ticks, k - 1), ticks[k - 1]).next;
    if k > i + 1 {
      RecordsLastFire(s0, ticks, i, k - 1, x);
      assert !FiredOn(s0, ticks, k - 1, x);
      StepKeepsOthers(StateAfter(s0, ticks, k - 1), ticks[k - 1], x);
    } else {
      StepRecordsFire(StateAfter(s0, ticks, i), ticks[i], x);
    }
  }

  /** A poll that fires on `x` stores its stamp for `x`. */
  lemma StepRecordsFire(s: MonitorState, t: Tick, x: string)
    requires Step(s, t).fired && t.ssid == Some(x)
    ensures x in Step(s, t).next.lastAttempt && Step(s, t).next.lastAttempt[x] == t.stamp
  {
  }

  /** A poll that does not fire on `x` leaves the entry for `x` as it was. */
  lemma StepKeepsOthers(s: MonitorState, t: Tick, x: string)
    requires !(Step(s, t).fired && t.ssid == Some(x))
    ensures x in Step(s, t).next.lastAttempt <==> x in s.lastAttempt
    ensures x in s.lastAttempt ==> Step(s, t).next.lastAttempt[x] == s.lastAttempt[x]
  {
  }

  /** Two consecutive logins on the same network are separated by more than
      the cooldown, measured from the time stored after the first. */
  lemma CooldownBetweenFires(s0: MonitorState, ticks: seq<Tick>, i: nat, j: nat, x: string)
    requires i < j < |ticks|
    requires FiredOn(s0, ticks, i, x) && FiredOn(s0, ticks, j, x)
    requires forall m :: i < m < j ==> !FiredOn(s0, ticks, m, x)
    ensures ticks[j].now - ticks[i].stamp > Cooldown
  {
    RecordsLastFire(s0, ticks, i, j, x);
  }

  /** The converse: a return to a college network after a different reading
      fires again once the cooldown since the last stored time has passed. */
  lemma FiresAfterCooldown(s0: MonitorState, ticks: seq<Tick>, i: nat, j: nat, x: string)
    requires i < j < |ticks|
    requires FiredOn(s0, ticks, i, x)
    requires forall m :: i < m < j ==> !FiredOn(s0, ticks, m, x)
    requires ticks[j].ssid == Some(x) && ticks[j - 1].ssid != Some(x)
    requires ticks[j].now - ticks[i].stamp > Cooldown
    ensures FiredOn(s0, ticks, j, x)
  {
    RecordsLastFire(s0, ticks, i, j, x);
    assert StateAfter(s0, ticks, j).lastWifi == ticks[j - 1].ssid;
    assert x != "" && IsCollegeNetwork(x) by {
      assert Step(StateAfter(s0, ticks, i), ticks[i]).fired;
    }
  }

  /** A login fires only on a change: two equal readings in a row never fire
      on the second. */
  lemma NoFireWithoutChange(s0: MonitorState, ticks: seq<Tick>, k: nat)
    requires 0 < k < |ticks|
    requires ticks[k].ssid == ticks[k - 1].ssid
    ensures !Step(StateAfter(s0, ticks, k), ticks[k]).fired
  {
  }

  /** A network that never fired keeps its entry (or its absence) from the
      start: only the fired network's timestamp ever changes. */
  lemma {:induction false} UntouchedWithoutFire(s0: MonitorState, ticks: seq<Tick>, k: nat, x: string)
    requires k <= |ticks|
    requires forall m :: 0 <= m < k ==> !FiredOn(s0, ticks, m, x)
    ensures x in StateAfter(s0, ticks, k).lastAttempt <==> x in s0.lastAttempt
    ensures x in s0.lastAttempt ==> StateAfter(s0, ticks, k).lastAttempt[x] == s0.lastAttempt[x]
    decreases k
  {
    if k > 0 {
      assert StateAfter(s0, ticks, k) == Step(StateAfter(s0, ticks, k - 1), ticks[k - 1]).next;
      UntouchedWithoutFire(s0, ticks, k - 1, x);
      assert !FiredOn(s0, ticks, k - 1, x);
      StepKeepsOthers(StateAfter(s0, ticks, k - 1), ticks[k - 1], x);
    }
  }

  /** Starting fresh, the first college network seen fires a login as soon
      as the clock is past the cooldown (the default time is 0). */
  lemma FirstCollegeNetworkFires(t: Tick)
    requires Connected(t.ssid) && IsCollegeNetwork(t.ssid.value) && t.now > Cooldown
    ensures Step(Start, t).fired
    ensures Step(Start, t).next == MonitorState(t.ssid, map[t.ssid.value := t.stamp])
  {
  }
}
