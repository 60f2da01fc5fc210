/**
 The chain-verify worker's alert hysteresis: one small automaton per tenant, driven by a loop over
 all tenants once per tick.
 */
module ChainAlert {
  import opened Prelude

  type TenantId = nat
  type Time = int

  datatype TenantState = TenantState(lastAlertAt: Option<Time>, inFailedState: bool)

  /** What checking one tenant's chain gave. */
  datatype Check = Ok | Failed | Threw

  /** One check and the clock as read when it failed. */
  datatype Observation = Observation(check: Check, now: Time)

  const CLEAN := TenantState(None, false)

  function StateFor(states: map<TenantId, TenantState>, t: TenantId): TenantState {
    if t in states then states[t] else CLEAN
  }

  predicate ShouldAlert(s: TenantState, now: Time, realert: int) {
    !s.inFailedState || (s.lastAlertAt.Some? && now - s.lastAlertAt.value >= realert)
  }

  predicate Alerts(s: TenantState, o: Observation, realert: int) {
    o.check.Failed? && ShouldAlert(s, o.now, realert)
  }

  function After(s: TenantState, o: Observation, realert: int): TenantState {
    match o.check
    case Threw => s
    case Ok => CLEAN
    case Failed => TenantState(if ShouldAlert(s, o.now, realert) then Some(o.now) else s.lastAlertAt, true)
  }

  // ----- the tick ------------------------------------------------------------------------------------

  /** A tick: the tenants in the order they were listed, and what checking each of them gave. */
  datatype Tick = Tick(tenants: seq<TenantId>, seen: map<TenantId, Observation>)

  ghost predicate ValidTick(k: Tick) {
    && (forall i, j :: 0 <= i < j < |k.tenants| ==> k.tenants[i] != k.tenants[j])
    && (forall t :: t in k.tenants ==> t in k.seen)
  }

  /** The states after a tick: every tenant that was checked stepped from the state it had before. */
  function TickStates(states: map<TenantId, TenantState>, k: Tick, realert: int): map<TenantId, TenantState>
    requires forall t :: t in k.tenants ==> t in k.seen
    decreases |k.tenants|
  {
    if k.tenants == [] then states
    else
      var n := |k.tenants| - 1;
      var t := k.tenants[n];
      var before := TickStates(states, Tick(k.tenants[..n], k.seen), realert);
      if k.seen[t].check.Threw? then before else before[t := After(StateFor(states, t), k.seen[t], realert)]
  }

  /** The alerts of a tick, each judged by the state its tenant had before the tick. */
  function TickAlerts(states: map<TenantId, TenantState>, k: Tick, realert: int): seq<(TenantId, Time)>
    requires forall t :: t in k.tenants ==> t in k.seen
    decreases |k.tenants|
  {
    if k.tenants == [] then []
    else
      var n := |k.tenants| - 1;
      var t := k.tenants[n];
      TickAlerts(states, Tick(k.tenants[..n], k.seen), realert)
      + (if Alerts(StateFor(states, t), k.seen[t], realert) then [(t, k.seen[t].now)] else [])
  }

  /**
   runTick: the loop over tenants that mutates the state map.  Every tenant that was checked steps
   its own automaton from the state it had before the tick, and nobody else's state changes.
   */
  method RunTick(states: map<TenantId, TenantState>, k: Tick, realert: int)
    returns (after: map<TenantId, TenantState>, alerts: seq<(TenantId, Time)>)
    requires ValidTick(k)
    ensures after == TickStates(states, k, realert)
    ensures alerts == TickAlerts(states, k, realert)
  {
    after, alerts := states, [];
    var i := 0;
    while i < |k.tenants|
      invariant 0 <= i <= |k.tenants|
      invariant after == TickStates(states, Tick(k.tenants[..i], k.seen), realert)
      invariant alerts == TickAlerts(states, Tick(k.tenants[..i], k.seen), realert)
    {
      var t := k.tenants[i];
      OneMoreTenant(states, k, i, realert);
      var o := k.seen[t];
      if !o.check.Threw? {
        var state := StateFor(after, t);
        if o.check.Failed? {
          var shouldAlert := !state.inFailedState || (state.lastAlertAt.Some? && o.now - state.lastAlertAt.value >= realert);
          if shouldAlert {
            alerts := alerts + [(t, o.now)];
            state := state.(lastAlertAt := Some(o.now));
          }
          state := state.(inFailedState := true);
        } else {
          state := state.(inFailedState := false);
          state := state.(lastAlertAt := None);
        }
        after := after[t := state];
      }
      i := i + 1;
    }
    assert k.tenants[..i] == k.tenants;
  }

  lemma {:induction false} OneMoreTenant(states: map<TenantId, TenantState>, k: Tick, i: nat, realert: int)
    requires ValidTick(k) && i < |k.tenants|
    ensures StateFor(TickStates(states, Tick(k.tenants[..i], k.seen), realert), k.tenants[i]) == StateFor(states, k.tenants[i])
    ensures k.tenants[..i + 1][..i] == k.tenants[..i]
  {
    assert k.tenants[i] !in k.tenants[..i];
    TickStatesAre(states, Tick(k.tenants[..i], k.seen), realert, k.tenants[i]);
  }

  /** A tick moves the automaton of each tenant it lists by one step and leaves the others alone. */
  lemma {:induction false} TickStatesAre(states: map<TenantId, TenantState>, k: Tick, realert: int, t: TenantId)
    requires forall u :: u in k.tenants ==> u in k.seen
    ensures StateFor(TickStates(states, k, realert), t) ==
              if t in k.tenants then After(StateFor(states, t), k.seen[t], realert) else StateFor(states, t)
    decreases |k.tenants|
  {
    if k.tenants != [] {
      var n := |k.tenants| - 1;
      TickStatesAre(states, Tick(k.tenants[..n], k.seen), realert, t);
      assert k.tenants == k.tenants[..n] + [k.tenants[n]];
    }
  }

  // ----- one tenant over a run of checks -----------------------------------------------------------------

  function RunTenant(s: TenantState, trace: seq<Observation>, realert: int): TenantState
    decreases |trace|
  {
    if trace == [] then s else RunTenant(After(s, trace[0], realert), trace[1..], realert)
  }

  /** The times at which a run alerts. */
  function AlertTimes(s: TenantState, trace: seq<Observation>, realert: int): seq<Time>
    decreases |trace|
  {
    if trace == [] then []
    else (if Alerts(s, trace[0], realert) then [trace[0].now] else []) + AlertTimes(After(s, trace[0], realert), trace[1..], realert)
  }

  /** A tenant is in the failed state exactly while it remembers an alert. */
  predicate Sane(s: TenantState) {
    s.inFailedState <==> s.lastAlertAt.Some?
  }

  lemma {:induction false} RunStaysSane(s: TenantState, trace: seq<Observation>, realert: int)
    requires Sane(s)
    ensures Sane(RunTenant(s, trace, realert))
    decreases |trace|
  {
    if trace != [] {
      RunStaysSane(After(s, trace[0], realert), trace[1..], realert);
    }
  }

  /** The first failure after a clean state alerts. */
  lemma {:induction false} FirstFailureAlerts(s: TenantState, o: Observation, realert: int)
    requires Sane(s) && o.check.Failed?
    ensures !s.inFailedState ==> Alerts(s, o, realert) && After(s, o, realert) == TenantState(Some(o.now), true)
    ensures s.inFailedState ==> (Alerts(s, o, realert) <==> o.now - s.lastAlertAt.value >= realert)
  {
  }

  /** A stretch of checks without a clean one. */
  ghost predicate NoCleanCheck(trace: seq<Observation>) {
    forall i :: 0 <= i < |trace| ==> !trace[i].check.Ok?
  }

  ghost predicate Spaced(times: seq<Time>, gap: int) {
    forall i :: 0 < i < |times| ==> times[i] - times[i - 1] >= gap
  }

  /** Within a failing stretch alerts are at least the re-alert interval apart, the remembered one included. */
  lemma {:induction false} AlertsAreSpaced(s: TenantState, trace: seq<Observation>, realert: int)
    requires Sane(s) && NoCleanCheck(trace)
    ensures var times := AlertTimes(s, trace, realert);
            && Spaced(times, realert)
            && (s.inFailedState && times != [] ==> times[0] - s.lastAlertAt.value >= realert)
    decreases |trace|
  {
    if trace != [] {
      var next := After(s, trace[0], realert);
      AlertsAreSpaced(next, trace[1..], realert);
    }
  }

  /** Non-decreasing clock readings within [from, to]. */
  ghost predicate Within(trace: seq<Observation>, from: Time, to: Time) {
    && (forall i, j :: 0 <= i <= j < |trace| ==> trace[i].now <= trace[j].now)
    && (forall i :: 0 <= i < |trace| ==> from <= trace[i].now <= to)
  }

  lemma {:induction false} AlertTimesAreReadings(s: TenantState, trace: seq<Observation>, realert: int, t: Time)
    requires t in AlertTimes(s, trace, realert)
    ensures exists i :: 0 <= i < |trace| && trace[i].now == t
    decreases |trace|
  {
    if !(Alerts(s, trace[0], realert) && trace[0].now == t) {
      AlertTimesAreReadings(After(s, trace[0], realert), trace[1..], realert, t);
      var i :| 0 <= i < |trace[1..]| && trace[1..][i].now == t;
      assert trace[i + 1].now == t;
    }
  }

  lemma {:induction false} SpacedSpan(times: seq<Time>, gap: nat)
    requires times != [] && Spaced(times, gap)
    ensures times[|times| - 1] - times[0] >= (|times| - 1) * gap
    decreases |times|
  {
    if |times| > 1 {
      var init := times[..|times| - 1];
      SpacedSpan(init, gap);
      assert (|times| - 1) * gap == (|times| - 2) * gap + gap;
    }
  }

  /** A failing stretch of length L raises at most 1 + L / H alerts. */
  lemma {:induction false} FewAlerts(s: TenantState, trace: seq<Observation>, realert: int, from: Time, to: Time)
    requires Sane(s) && NoCleanCheck(trace) && Within(trace, from, to) && from <= to && realert > 0
    ensures |AlertTimes(s, trace, realert)| <= 1 + (to - from) / realert
  {
    var times := AlertTimes(s, trace, realert);
    AlertsAreSpaced(s, trace, realert);
    if times != [] {
      SpacedSpan(times, realert);
      AlertTimesAreReadings(s, trace, realert, times[0]);
      AlertTimesAreReadings(s, trace, realert, times[|times| - 1]);
      CountByLength(|times| - 1, realert, to - from);
    }
  }

  lemma {:induction false} CountByLength(n: nat, gap: int, length: int)
    requires gap > 0 && n * gap <= length
    ensures n <= length / gap
  {
    var q := length / gap;
    assert length < (q + 1) * gap;
  }

  /** No failure goes unreported: at each failed check the last alert is younger than the interval. */
  lemma {:induction false} FailureWasAlertedRecently(s: TenantState, trace: seq<Observation>, o: Observation, realert: int)
    requires Sane(s) && o.check.Failed? && realert > 0
    ensures var after := RunTenant(s, trace + [o], realert);
            after.lastAlertAt.Some? && o.now - after.lastAlertAt.value < realert
  {
    RunStaysSane(s, trace, realert);
    RunConcat(s, trace, [o], realert);
    var mid := RunTenant(s, trace, realert);
    assert RunTenant(mid, [o], realert) == After(mid, o, realert);
  }

  lemma {:induction false} RunConcat(s: TenantState, a: seq<Observation>, b: seq<Observation>, realert: int)
    ensures RunTenant(s, a + b, realert) == RunTenant(RunTenant(s, a, realert), b, realert)
    decreases |a|
  {
    if a == [] {
      assert a + b == b;
    } else {
      assert (a + b)[1..] == a[1..] + b;
      RunConcat(After(s, a[0], realert), a[1..], b, realert);
    }
  }

  // ----- the worker over many ticks --------------------------------------------------------------------------

  function RunTicks(states: map<TenantId, TenantState>, ticks: seq<Tick>, realert: int): map<TenantId, TenantState>
    requires forall i :: 0 <= i < |ticks| ==> ValidTick(ticks[i])
    decreases |ticks|
  {
    if ticks == [] then states
    else
      assert ValidTick(ticks[0]);
      RunTicks(TickStates(states, ticks[0], realert), ticks[1..], realert)
  }

  /** What the ticks showed of one tenant: ticks that did not list it are not part of its trace. */
  function Project(ticks: seq<Tick>, t: TenantId): seq<Observation>
    decreases |ticks|
  {
    if ticks == [] then []
    else (if t in ticks[0].tenants && t in ticks[0].seen then [ticks[0].seen[t]] else []) + Project(ticks[1..], t)
  }

  /** Everything the worker sends over the ticks, in order. */
  function RunAlerts(states: map<TenantId, TenantState>, ticks: seq<Tick>, realert: int): seq<(TenantId, Time)>
    requires forall i :: 0 <= i < |ticks| ==> ValidTick(ticks[i])
    decreases |ticks|
  {
    if ticks == [] then []
    else
      assert ValidTick(ticks[0]);
      TickAlerts(states, ticks[0], realert) + RunAlerts(TickStates(states, ticks[0], realert), ticks[1..], realert)
  }

  /** The times of the alerts that name one tenant. */
  function SentFor(alerts: seq<(TenantId, Time)>, t: TenantId): seq<Time> {
    if alerts == [] then []
    else (if alerts[0].0 == t then [alerts[0].1] else []) + SentFor(alerts[1..], t)
  }

  lemma {:induction false} SentForConcat(a: seq<(TenantId, Time)>, b: seq<(TenantId, Time)>, t: TenantId)
    ensures SentFor(a + b, t) == SentFor(a, t) + SentFor(b, t)
  {
    if a == [] {
      assert a + b == b;
    } else {
      assert (a + b)[0] == a[0] && (a + b)[1..] == a[1..] + b;
      SentForConcat(a[1..], b, t);
      Regroup(if a[0].0 == t then [a[0].1] else [], SentFor(a[1..], t), SentFor(b, t));
    }
  }

  lemma {:induction false} SentForOne(u: TenantId, now: Time, t: TenantId)
    ensures SentFor([(u, now)], t) == if u == t then [now] else []
  {
    assert [(u, now)][1..] == [];
  }

  /** One tick alerts a tenant at most once: exactly if it is listed and its automaton alerts. */
  lemma {:induction false} TickAlertsAre(states: map<TenantId, TenantState>, k: Tick, realert: int, t: TenantId)
    requires ValidTick(k)
    ensures SentFor(TickAlerts(states, k, realert), t)
         == if t in k.tenants && Alerts(StateFor(states, t), k.seen[t], realert) then [k.seen[t].now] else []
    decreases |k.tenants|
  {
    if k.tenants != [] {
      var n := |k.tenants| - 1;
      InitTick(k);
      TickAlertsAre(states, Tick(k.tenants[..n], k.seen), realert, t);
      LastTenantAlerts(states, k, realert, t);
    }
  }

  lemma {:induction false} InitTick(k: Tick)
    requires ValidTick(k) && k.tenants != []
    ensures var n := |k.tenants| - 1;
            && ValidTick(Tick(k.tenants[..n], k.seen)) && k.tenants[n] !in k.tenants[..n]
            && forall t :: t in k.tenants <==> t in k.tenants[..n] || t == k.tenants[n]
  {
    var n := |k.tenants| - 1;
    assert k.tenants == k.tenants[..n] + [k.tenants[n]];
  }

  lemma {:induction false} LastTenantAlerts(states: map<TenantId, TenantState>, k: Tick, realert: int, t: TenantId)
    requires ValidTick(k) && k.tenants != []
    ensures var n := |k.tenants| - 1;
            var u := k.tenants[n];
            var own := if u == t && Alerts(StateFor(states, u), k.seen[u], realert) then [k.seen[u].now] else [];
            SentFor(TickAlerts(states, k, realert), t) == SentFor(TickAlerts(states, Tick(k.tenants[..n], k.seen), realert), t) + own
  {
    var n := |k.tenants| - 1;
    var u := k.tenants[n];
    var last := if Alerts(StateFor(states, u), k.seen[u], realert) then [(u, k.seen[u].now)] else [];
    SentForConcat(TickAlerts(states, Tick(k.tenants[..n], k.seen), realert), last, t);
    SentForOne(u, k.seen[u].now, t);
  }

  /**
   The worker is nothing but independent automata: a tenant's state and the alerts sent for it are
   those of its own automaton on its own trace, whatever happens to other tenants.
   */
  lemma {:induction false} TenantsAreIndependent(states: map<TenantId, TenantState>, ticks: seq<Tick>, realert: int, t: TenantId)
    requires forall i :: 0 <= i < |ticks| ==> ValidTick(ticks[i])
    ensures StateFor(RunTicks(states, ticks, realert), t) == RunTenant(StateFor(states, t), Project(ticks, t), realert)
    ensures SentFor(RunAlerts(states, ticks, realert), t) == AlertTimes(StateFor(states, t), Project(ticks, t), realert)
    decreases |ticks|
  {
    if ticks != [] {
      var k := ticks[0];
      assert ValidTick(k);
      var next := TickStates(states, k, realert);
      TickStatesAre(states, k, realert, t);
      TickAlertsAre(states, k, realert, t);
      TenantsAreIndependent(next, ticks[1..], realert, t);
      SentForConcat(TickAlerts(states, k, realert), RunAlerts(next, ticks[1..], realert), t);
      var rest := Project(ticks[1..], t);
      if t in k.tenants {
        assert Project(ticks, t) == [k.seen[t]] + rest;
        assert ([k.seen[t]] + rest)[1..] == rest;
      } else {
        assert Project(ticks, t) == rest;
      }
    }
  }

  // ----- what the worker sends ----------------------------------------------------------------------------------

  /** While a tenant has no clean check, the alerts the worker sends for it are the interval apart. */
  lemma {:induction false} SentAlertsAreSpaced(states: map<TenantId, TenantState>, ticks: seq<Tick>, realert: int, t: TenantId)
    requires forall i :: 0 <= i < |ticks| ==> ValidTick(ticks[i])
    requires Sane(StateFor(states, t)) && NoCleanCheck(Project(ticks, t))
    ensures Spaced(SentFor(RunAlerts(states, ticks, realert), t), realert)
  {
    TenantsAreIndependent(states, ticks, realert, t);
    AlertsAreSpaced(StateFor(states, t), Project(ticks, t), realert);
  }

  /** Over a failing stretch of length L the worker sends at most 1 + L / H alerts for a tenant. */
  lemma {:induction false} FewAlertsAreSent(states: map<TenantId, TenantState>, ticks: seq<Tick>, realert: int, t: TenantId, from: Time, to: Time)
    requires forall i :: 0 <= i < |ticks| ==> ValidTick(ticks[i])
    requires Sane(StateFor(states, t)) && NoCleanCheck(Project(ticks, t))
    requires Within(Project(ticks, t), from, to) && from <= to && realert > 0
    ensures |SentFor(RunAlerts(states, ticks, realert), t)| <= 1 + (to - from) / realert
  {
    TenantsAreIndependent(states, ticks, realert, t);
    FewAlerts(StateFor(states, t), Project(ticks, t), realert, from, to);
  }

  /** The alert a tenant remembers at the end was sent during the run, or remembered from before it. */
  lemma {:induction false} RememberedAlertWasSent(s: TenantState, trace: seq<Observation>, realert: int)
    ensures var after := RunTenant(s, trace, realert);
            after.lastAlertAt.Some? && after.lastAlertAt != s.lastAlertAt ==> after.lastAlertAt.value in AlertTimes(s, trace, realert)
    decreases |trace|
  {
    if trace != [] {
      RememberedAlertWasSent(After(s, trace[0], realert), trace[1..], realert);
    }
  }

  /** From a fresh start, whenever a tenant's last check failed, the worker sent an alert for it less than the interval before. */
  lemma {:induction false} FailureWasSentRecently(ticks: seq<Tick>, realert: int, t: TenantId)
    requires forall i :: 0 <= i < |ticks| ==> ValidTick(ticks[i])
    requires Project(ticks, t) != [] && Project(ticks, t)[|Project(ticks, t)| - 1].check.Failed? && realert > 0
    ensures var now := Project(ticks, t)[|Project(ticks, t)| - 1].now;
            exists at :: at in SentFor(RunAlerts(map[], ticks, realert), t) && now - at < realert
  {
    var trace := Project(ticks, t);
    var n := |trace| - 1;
    TenantsAreIndependent(map[], ticks, realert, t);
    FailureWasAlertedRecently(CLEAN, trace[..n], trace[n], realert);
    assert trace == trace[..n] + [trace[n]];
    RememberedAlertWasSent(CLEAN, trace, realert);
    var at := RunTenant(CLEAN, trace, realert).lastAlertAt.value;
    assert at in AlertTimes(CLEAN, trace, realert);
  }
}
