/** When an action notifies and what its log says, in terms of its settings (services/checks/actions.py). */
module NotificationReading {
  import opened Basics
  import opened Notifications
  import Races = NotificationRaces

  // ---------------------------------------------------------------------------------------------
  // When an action is due.

  /** The setting is absent or names the state. */
  predicate NamesState(setting: Option<string>, h: HealthState) {
    setting == None || (h == Healthy && setting == Some("healthy")) || (h == Degraded && setting == Some("degraded"))
    || (h == Critical && setting == Some("critical")) || (h == Unknown && setting == Some("unknown"))
  }

  predicate IsUnknown(condition: Option<string>) {
    condition !in {None, Some("on_completion"), Some("on_failure"), Some("on_recovery"), Some("on_health_transition"),
                   Some("on_severity_threshold"), Some("periodic_reminder")}
  }

  /** By condition; none given means on completion, and an unknown one is never due. */
  lemma DueExactly(a: Action, status: ExecutionStatus, findings: seq<Option<Severity>>, previous: HealthState,
                   current: HealthState)
    ensures var due := ShouldDispatch(a, status, findings, previous, current);
            && (a.condition in {None, Some("on_completion")} ==> (due <==> status == Completed))
            && (a.condition == Some("on_failure") ==> (due <==> status in {Failed, Cancelled}))
            && (a.condition == Some("periodic_reminder") ==> due)
            && (IsUnknown(a.condition) ==> !due)
  {
  }

  /** The conditions on the health states before and after. */
  lemma HealthExactly(a: Action, status: ExecutionStatus, findings: seq<Option<Severity>>, previous: HealthState,
                      current: HealthState)
    ensures var due := ShouldDispatch(a, status, findings, previous, current);
            && (a.condition == Some("on_recovery") ==>
                  (due <==> current == Healthy && previous in {Critical, Degraded}))
            && (a.condition == Some("on_health_transition") ==>
                  (due <==> previous != current && NamesState(a.fromState, previous) && NamesState(a.toState, current)))
  {
  }

  ghost predicate SomeFinding(findings: seq<Option<Severity>>, severity: Option<Severity>) {
    exists i :: 0 <= i < |findings| && findings[i] == severity
  }

  /** A threshold asks for a finding of just that severity, but a warning is also met by a critical one. */
  lemma ThresholdExactly(a: Action, status: ExecutionStatus, findings: seq<Option<Severity>>, previous: HealthState,
                         current: HealthState)
    requires a.condition == Some("on_severity_threshold")
    ensures var due := ShouldDispatch(a, status, findings, previous, current);
            match a.threshold
            case None => due <==> SomeFinding(findings, Some(Severe))
            case Some(Some(Warning)) =>
              due <==> SomeFinding(findings, Some(Warning)) || SomeFinding(findings, Some(Severe))
            case Some(threshold) => due <==> SomeFinding(findings, threshold)
  {
    forall severity ensures SomeFinding(findings, severity) <==> severity in findings {
    }
    var threshold := a.threshold.GetOr(Some(Severe));
    assert ShouldDispatch(a, status, findings, previous, current) <==>
             threshold in findings || (threshold == Some(Warning) && Some(Severe) in findings);
  }

  // ---------------------------------------------------------------------------------------------
  // Logs.

  function Or<T>(setting: Option<T>, default: T): T {
    if setting.Some? then setting.value else default
  }

  /** A log of this check, type and condition, not failed and no older than the cooldown, by default 300 seconds. */
  predicate Quells(l: Log, check: string, a: Action, now: int) {
    && l.check == check && l.actionType == Or(a.actionType, "webhook")
    && l.dedupKey == check + ":" + Or(a.actionType, "webhook") + ":" + Or(a.condition, "on_completion")
    && l.createdAt >= now - Or(a.cooldownSeconds, 300) && l.status != DeliveryFailed
  }

  ghost predicate Quelled(logs: seq<Log>, check: string, a: Action, now: int) {
    exists i :: 0 <= i < |logs| && Quells(logs[i], check, a, now)
  }

  function LogOf(check: string, a: Action, now: int): Log {
    Log(check, Or(a.actionType, "webhook"),
        check + ":" + Or(a.actionType, "webhook") + ":" + Or(a.condition, "on_completion"), now, Pending, a.target)
  }

  lemma QuelledExactly(logs: seq<Log>, check: string, a: Action, now: int)
    ensures IsSuppressed(logs, check, a, now) <==> Quelled(logs, check, a, now)
  {
    if IsSuppressed(logs, check, a, now) {
      var key := DedupKey(check, TypeOf(a), ConditionOf(a));
      var l :| l in logs && Recent(l, check, TypeOf(a), key, now - CooldownOf(a));
      var i :| 0 <= i < |logs| && logs[i] == l;
      assert Quells(logs[i], check, a, now);
    }
    if i :| 0 <= i < |logs| && Quells(logs[i], check, a, now) {
      assert logs[i] in logs;
    }
  }

  /** An action that is due notifies exactly when no such log quells it, with a pending log of its own settings. */
  lemma TryExactly(logs: seq<Log>, check: string, a: Action, due: bool, r: Reading)
    ensures DispatchOne(logs, check, a, due, r)
         == if due && !Quelled(logs, check, a, r.look) then logs + [LogOf(check, a, r.make)] else logs
  {
    QuelledExactly(logs, check, a, r.look);
  }

  /** The same of a look and its own making, when others come between; one look makes one log at most. */
  lemma LookExactly(r: Races.Race, check: string, a: Action, due: bool, time: int, k: nat, later: int)
    ensures var looks := Races.Step(r, Races.LookAt(check, a, due, time)).looks;
            && |looks| == |r.looks| + 1 && looks[..|r.looks|] == r.looks
            && (looks[|r.looks|].clear <==> due && !Quelled(r.history.logs, check, a, time))
            && looks[|r.looks|].check == check && looks[|r.looks|].action == a
    ensures k < |r.looks| ==>
              var look := r.looks[k];
              Races.Step(r, Races.Make(k, later)).history.logs
              == if look.clear then r.history.logs + [LogOf(look.check, look.action, later)] else r.history.logs
    ensures k < |r.looks| ==>
              var looks := Races.Step(r, Races.Make(k, later)).looks;
              |looks| == |r.looks| && !looks[k].clear && forall n | 0 <= n < |looks| && n != k :: looks[n] == r.looks[n]
  {
    QuelledExactly(r.history.logs, check, a, time);
  }
}
