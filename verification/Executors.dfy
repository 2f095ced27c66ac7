/** The transactional tunnel executor over a native system that may fail or half-apply any call. */
module Executors {
  import opened Sequences
  import opened Wrappers
  import opened Protocol
  import opened Prefixes
  import opened TunnelPlans
  import Firewall

  datatype TunnelReadback = TunnelReadback(
    publicKey: string, addresses: seq<string>, mtu: int, peer: TunnelPeer,
    routes: seq<string>, dnsServers: seq<string>)

  const NOTHING := TunnelReadback("", [], 0, TunnelPeer("", "", [], 0), [], [])

  function ReadbackOf(plan: TunnelPlan): TunnelReadback {
    TunnelReadback(plan.publicKey, plan.addresses, plan.mtu, plan.peer, plan.routes, plan.dnsServers)
  }

  /** A readback hash; equal hashes mean equal readbacks. */
  datatype Digest = Digest(readback: TunnelReadback)

  datatype Status = Applied | RolledBack(reason: string) | Rejected(reason: string)

  datatype Outcome = Outcome(status: Status, hash: Digest)

  /** One call into the native system and its answer. */
  datatype Call =
    | Apply(plan: TunnelPlan, ok: bool)
    | Disable(ok: bool)
    | Readback(seen: Option<TunnelReadback>)

  /** The native system: every answer is arbitrary, unless it obeys: then it refuses exactly some plans and is
      otherwise as it was last told to be. The log records each call. */
  class NativeTunnel {
    const obeys: bool
    const refused: set<TunnelPlan>
    var inForce: TunnelReadback
    ghost var log: seq<Call>

    ghost predicate Obedient()
      reads this
    {
      obeys ==>
        && Answered(log, refused)
        && (log != [] && Last(log).Apply? && Last(log).ok ==> inForce == ReadbackOf(Last(log).plan))
    }

    constructor (obeys: bool, refused: set<TunnelPlan>)
      ensures log == [] && Obedient() && this.obeys == obeys && this.refused == refused
    {
      this.obeys, this.refused, inForce, log := obeys, refused, NOTHING, [];
    }

    method Apply(plan: TunnelPlan) returns (ok: bool)
      requires Obedient()
      modifies this
      ensures Obedient() && log == old(log) + [Call.Apply(plan, ok)]
    {
      ok := *;
      if obeys {
        ok := plan !in refused;
      }
      if ok {
        inForce := ReadbackOf(plan);
      }
      AnsweredNext(log, refused, Call.Apply(plan, ok));
      log := log + [Call.Apply(plan, ok)];
    }

    method Disable() returns (ok: bool)
      requires Obedient()
      modifies this
      ensures Obedient() && log == old(log) + [Call.Disable(ok)]
    {
      ok := *;
      if obeys {
        ok, inForce := true, NOTHING;
      }
      AnsweredNext(log, refused, Call.Disable(ok));
      log := log + [Call.Disable(ok)];
    }

    method Readback() returns (seen: Option<TunnelReadback>)
      requires Obedient()
      modifies this
      ensures Obedient() && log == old(log) + [Call.Readback(seen)]
    {
      seen := *;
      if obeys {
        seen := Some(inForce);
      }
      AnsweredNext(log, refused, Call.Readback(seen));
      log := log + [Call.Readback(seen)];
    }

    method InterfaceName() returns (name: Option<string>)
    {
      name := *;
    }
  }

  /** An obedient system's answers: only the refused plans fail, and a plan applied is what is read next. */
  ghost predicate Answered(log: seq<Call>, refused: set<TunnelPlan>) {
    forall i :: 0 <= i < |log| ==> AnsweredAt(log, refused, i)
  }

  ghost predicate AnsweredAt(log: seq<Call>, refused: set<TunnelPlan>, i: nat)
    requires i < |log|
  {
    match log[i]
    case Apply(plan, ok) => ok <==> plan !in refused
    case Disable(ok) => true
    case Readback(seen) => i > 0 && log[i - 1].Apply? && log[i - 1].ok ==> seen == Some(ReadbackOf(log[i - 1].plan))
  }

  lemma AnsweredNext(log: seq<Call>, refused: set<TunnelPlan>, call: Call)
    ensures Answered(log, refused) && AnsweredAt(log + [call], refused, |log|) ==> Answered(log + [call], refused)
  {
    forall i | Answered(log, refused) && 0 <= i < |log|
      ensures AnsweredAt(log + [call], refused, i)
    {
      assert AnsweredAt(log, refused, i);
    }
  }

  // --- what a log shows ---

  /** Call i applied the plan, call i + 1 read it back, and nothing was mutated since. */
  ghost predicate VerifiedAt(log: seq<Call>, plan: TunnelPlan, i: nat) {
    && i + 1 < |log|
    && log[i] == Call.Apply(plan, true)
    && log[i + 1] == Call.Readback(Some(ReadbackOf(plan)))
    && forall k :: i < k < |log| ==> log[k].Readback?
  }

  /** The last mutating call applied the plan successfully, and the readback right after it matched. */
  ghost predicate Verified(log: seq<Call>, plan: TunnelPlan) {
    exists i :: VerifiedAt(log, plan, i)
  }

  /** A log shows at most one plan to be in force. */
  lemma VerifiedUnique(log: seq<Call>, p: TunnelPlan, q: TunnelPlan)
    requires Verified(log, p) && Verified(log, q)
    ensures p == q
  {
  }

  lemma VerifiedBy(log: seq<Call>, plan: TunnelPlan)
    ensures Verified(log + [Call.Apply(plan, true)] + [Call.Readback(Some(ReadbackOf(plan)))], plan)
  {
    assert VerifiedAt(log + [Call.Apply(plan, true)] + [Call.Readback(Some(ReadbackOf(plan)))], plan, |log|);
  }

  lemma ObservingKeepsVerified(log: seq<Call>, plan: TunnelPlan, seen: Option<TunnelReadback>)
    requires Verified(log, plan)
    ensures Verified(log + [Call.Readback(seen)], plan)
  {
    var i :| VerifiedAt(log, plan, i);
    assert VerifiedAt(log + [Call.Readback(seen)], plan, i);
  }

  /** Every plan ever handed to the native system is one of the granted plans. */
  ghost predicate OnlyGranted(log: seq<Call>, granted: set<TunnelPlan>) {
    forall call :: call in log && call.Apply? ==> call.plan in granted
  }

  /** The calls of a successful apply. */
  function ApplyCalls(plan: TunnelPlan): seq<Call> {
    [Call.Apply(plan, true), Call.Readback(Some(ReadbackOf(plan)))]
  }

  /** The calls of an apply that did not take: the native call failed, or the readback differed. */
  predicate FailedApply(calls: seq<Call>, plan: TunnelPlan) {
    || calls == [Call.Apply(plan, false)]
    || (&& |calls| == 2 && calls[0] == Call.Apply(plan, true)
        && calls[1].Readback? && calls[1].seen != Some(ReadbackOf(plan)))
  }

  function FailureReason(calls: seq<Call>): string {
    if |calls| == 1 then "endpoint_apply_failed" else "endpoint_readback_mismatch"
  }

  predicate IsDisable(calls: seq<Call>) {
    |calls| == 2 && calls[0].Disable? && calls[1].Readback?
  }

  /** A disable succeeds exactly if the native call did and nothing was left. */
  predicate DisableCalls(calls: seq<Call>, ok: bool) {
    IsDisable(calls) && (ok <==> calls[0].ok && calls[1].seen == Some(NOTHING))
  }

  /** A failed apply of the plan, then a failed apply of the plan remembered before. */
  predicate FailedTwice(calls: seq<Call>, plan: TunnelPlan, before: TunnelPlan) {
    exists k :: 0 <= k <= |calls| && FailedApply(calls[..k], plan) && FailedApply(calls[k..], before)
  }

  /** Every way applying an acceptable plan can go, with the outcome and the remembered plan. */
  predicate ApplyRun(
    calls: seq<Call>, plan: TunnelPlan, before: Option<TunnelPlan>, after: Option<TunnelPlan>, outcome: Outcome)
  {
    match outcome.status
    case Applied =>
      calls == ApplyCalls(plan) && after == Some(plan) && outcome.hash == Digest(ReadbackOf(plan))
    case RolledBack(reason) =>
      && before.Some? && after == before && outcome.hash == Digest(ReadbackOf(before.value))
      && |calls| >= 2 && FailedApply(calls[..|calls| - 2], plan) && reason == FailureReason(calls[..|calls| - 2])
      && calls[|calls| - 2..] == ApplyCalls(before.value)
    case Rejected(reason) =>
      && after == None && outcome.hash == Digest(NOTHING)
      && |calls| >= 2 && IsDisable(calls[|calls| - 2..])
      && var failed := calls[..|calls| - 2];
         if before.None? then FailedApply(failed, plan) && reason == FailureReason(failed)
         else FailedTwice(failed, plan, before.value) && reason == "endpoint_rollback_failed"
  }

  predicate ValidInterfaceName(name: string) {
    1 <= |name| <= 64 && forall i :: 0 <= i < |name| ==> LetterOrDigit(name[i]) || name[i] in "_-"
  }

  /** A configuration and the time at which it was accepted. */
  datatype Grant = Grant(desired: Desired, at: Time)

  class Executor {
    const f: Formats
    const own: Identity
    const system: NativeTunnel
    var previous: Option<TunnelPlan>
    ghost var source: Option<Grant> // what the remembered plan was built from
    ghost var granted: set<TunnelPlan> // the plans of all acceptable configurations received so far

    /** The remembered plan is the one the log shows in force; only granted plans were ever applied. */
    ghost predicate Valid()
      reads this, system
    {
      && f.Lawful() && system.Obedient()
      && (previous.Some? ==> Verified(system.log, previous.value) && previous.value in granted)
      && OnlyGranted(system.log, granted)
      && (previous.None? <==> source.None?) && Sourced(previous, source)
    }

    /** The remembered plan is that of a configuration which was acceptable when it was granted. */
    ghost predicate Sourced(plan: Option<TunnelPlan>, source: Option<Grant>)
      requires f.Lawful()
    {
      plan.Some? && source.Some? ==>
        && Acceptable(f, source.value.desired, own, source.value.at)
        && plan.value == PlanOf(f, source.value.desired, own)
    }

    constructor (f: Formats, own: Identity, system: NativeTunnel)
      requires f.Lawful() && system.log == [] && system.Obedient()
      ensures Valid() && previous == None && granted == {}
      ensures this.f == f && this.own == own && this.system == system
    {
      this.f, this.own, this.system := f, own, system;
      previous, source, granted := None, None, {};
    }

    method Apply(desired: Desired, now: Time) returns (outcome: Outcome)
      requires Valid()
      modifies this, system
      ensures Valid()
      ensures old(system.log) <= system.log
      ensures granted == old(granted) + if Acceptable(f, desired, own, now) then {PlanOf(f, desired, own)} else {}
      ensures var calls := system.log[|old(system.log)|..];
              if desired.wireGuard.None? then
                && previous == None && outcome.hash == Digest(NOTHING)
                && outcome.status in {Applied, Rejected("endpoint_disable_failed")}
                && DisableCalls(calls, outcome.status == Applied)
              else if Acceptable(f, desired, own, now) then
                ApplyRun(calls, PlanOf(f, desired, own), old(previous), previous, outcome)
              else
                && calls == [] && previous == old(previous)
                && outcome == Outcome(Rejected("unsafe_endpoint_configuration"), Digest(NOTHING))
      ensures outcome.status == Applied && desired.wireGuard.Some? ==> source == Some(Grant(desired, now))
      ensures outcome.status.RolledBack? ==>
                && source == old(source) && source.Some? && previous == Some(PlanOf(f, source.value.desired, own))
                && (Acceptable(f, source.value.desired, own, now) <==> StillLive(source.value.desired, now))
      ensures system.obeys && desired.wireGuard.Some? && Acceptable(f, desired, own, now) ==>
                outcome.status == ObedientStatus(PlanOf(f, desired, own), old(previous), system.refused)
    {
      hide StillLive, ApplyRun, Verified, Answered;
      if desired.wireGuard.None? {
        var disabled := DisableTunnel();
        return Outcome(if disabled then Applied else Rejected("endpoint_disable_failed"), Digest(NOTHING));
      }
      var built := BuildTunnelPlan(f, desired, own, now);
      if built.None? {
        return Outcome(Rejected("unsafe_endpoint_configuration"), Digest(NOTHING));
      }
      outcome := ApplyGranted(built.value, desired, now);
    }

    /** Applies the plan of an acceptable configuration. */
    method ApplyGranted(plan: TunnelPlan, ghost desired: Desired, ghost now: Time) returns (outcome: Outcome)
      requires Valid() && Acceptable(f, desired, own, now) && plan == PlanOf(f, desired, own)
      modifies this, system
      ensures Valid() && old(system.log) <= system.log && granted == old(granted) + {plan}
      ensures ApplyRun(system.log[|old(system.log)|..], plan, old(previous), previous, outcome)
      ensures outcome.status == Applied ==> source == Some(Grant(desired, now))
      ensures outcome.status.RolledBack? ==>
                && source == old(source) && source.Some? && previous == Some(PlanOf(f, source.value.desired, own))
                && (Acceptable(f, source.value.desired, own, now) <==> StillLive(source.value.desired, now))
      ensures system.obeys ==> outcome.status == ObedientStatus(plan, old(previous), system.refused)
    {
      hide Acceptable, StillLive, ApplyRun, Verified, Answered;
      granted := granted + {plan};
      ghost var before := system.log;
      outcome := ApplyPlan(plan, Grant(desired, now));
      if system.obeys {
        ObedientRun(system.log, |before|, plan, old(previous), previous, outcome, system.refused);
      }
      if outcome.status.RolledBack? {
        StillAcceptableExactly(f, source.value.desired, own, source.value.at, now);
      }
    }

    method ApplyPlan(plan: TunnelPlan, ghost grant: Grant) returns (outcome: Outcome)
      requires Valid() && plan in granted && Sourced(Some(plan), Some(grant))
      modifies this`previous, this`source, system
      ensures Valid() && old(system.log) <= system.log
      ensures outcome.status.RolledBack? ==> source.Some?
      ensures source == match outcome.status
                        case Applied => Some(grant)
                        case RolledBack(_) => old(source)
                        case Rejected(_) => None
      ensures ApplyRun(system.log[|old(system.log)|..], plan, old(previous), previous, outcome)
    {
      hide NativeTunnel.Obedient, Executor.Sourced;
      ghost var before := system.log;
      var failure := Attempt(plan);
      if failure.Some? {
        outcome := Recover(failure.value, plan, before, system.log[|before|..]);
        return;
      }
      previous, source := Some(plan), Some(grant);
      outcome := Outcome(Applied, Digest(ReadbackOf(plan)));
    }

    /** One native apply and its readback; a failure names the step that failed. */
    method Attempt(plan: TunnelPlan) returns (failure: Option<string>)
      requires OnlyGranted(system.log, granted) && plan in granted && system.Obedient()
      modifies system
      ensures system.Obedient() && OnlyGranted(system.log, granted)
      ensures old(system.log) <= system.log
      ensures var calls := system.log[|old(system.log)|..];
              if failure.None? then calls == ApplyCalls(plan) && Verified(system.log, plan)
              else FailedApply(calls, plan) && failure.value == FailureReason(calls)
    {
      ghost var before := system.log;
      var ok := system.Apply(plan);
      if !ok {
        return Some("endpoint_apply_failed");
      }
      var readback := system.Readback();
      if readback != Some(ReadbackOf(plan)) {
        return Some("endpoint_readback_mismatch");
      }
      VerifiedBy(before, plan);
      failure := None;
    }

    /** Compares the system with the configuration and mutates nothing. */
    method Verify(desired: Desired, now: Time) returns (outcome: Outcome)
      requires Valid()
      modifies system
      ensures Valid() && previous == old(previous)
      ensures if desired.wireGuard.Some? && !Acceptable(f, desired, own, now) then
                && system.log == old(system.log)
                && outcome == Outcome(Rejected("unsafe_endpoint_configuration"), Digest(NOTHING))
              else
                var expected := if desired.wireGuard.None? then NOTHING else ReadbackOf(PlanOf(f, desired, own));
                exists seen :: system.log == old(system.log) + [Call.Readback(seen)]
                  && outcome == if seen == Some(expected) then Outcome(Applied, Digest(expected))
                                else Outcome(Rejected("endpoint_readback_mismatch"), Digest(NOTHING))
    {
      var expected := NOTHING;
      if desired.wireGuard.Some? {
        var built := BuildTunnelPlan(f, desired, own, now);
        if built.None? {
          return Outcome(Rejected("unsafe_endpoint_configuration"), Digest(NOTHING));
        }
        expected := ReadbackOf(built.value);
      }
      var actual := Observe();
      if actual != Some(expected) {
        return Outcome(Rejected("endpoint_readback_mismatch"), Digest(NOTHING));
      }
      outcome := Outcome(Applied, Digest(actual.value));
    }

    method Disable() returns (ok: bool)
      requires Valid()
      modifies this`previous, this`source, system
      ensures Valid() && previous == None
      ensures old(system.log) <= system.log && DisableCalls(system.log[|old(system.log)|..], ok)
    {
      ok := DisableTunnel();
    }

    /** The verified live interface and its routes, or nothing. */
    method VpnBinding() returns (binding: Option<(string, seq<string>)>)
      requires Valid()
      modifies system
      ensures Valid() && previous == old(previous)
      ensures previous.None? ==> binding == None && system.log == old(system.log)
      ensures binding.Some? ==> && previous.Some? && Verified(system.log, previous.value)
                                && system.log == old(system.log) + [Call.Readback(Some(ReadbackOf(previous.value)))]
                                && binding.value.1 == previous.value.routes && 1 <= |binding.value.0| <= 64
                                && forall c :: c in binding.value.0 ==> LetterOrDigit(c) || c == '_' || c == '-'
    {
      if previous.None? {
        return None;
      }
      var readback := Observe();
      if readback != Some(ReadbackOf(previous.value)) {
        return None;
      }
      var name := system.InterfaceName();
      if name.None? || !ValidInterfaceName(name.value) {
        return None;
      }
      binding := Some((name.value, readback.value.routes));
    }

    method Observe() returns (seen: Option<TunnelReadback>)
      requires Valid()
      modifies system
      ensures Valid() && system.log == old(system.log) + [Call.Readback(seen)]
    {
      ghost var before := system.log;
      seen := system.Readback();
      if previous.Some? {
        ObservingKeepsVerified(before, previous.value, seen);
      }
    }

    method DisableTunnel() returns (ok: bool)
      requires f.Lawful() && OnlyGranted(system.log, granted) && system.Obedient()
      modifies this`previous, this`source, system
      ensures Valid() && previous == None
      ensures old(system.log) <= system.log && DisableCalls(system.log[|old(system.log)|..], ok)
    {
      ghost var before := system.log;
      var disabled := system.Disable();
      var readback := system.Readback();
      previous, source := None, None;
      ok := disabled && readback == Some(NOTHING);
      assert system.log[|before|..] == [Call.Disable(disabled), Call.Readback(readback)];
    }

    /** After a failed apply: put the remembered plan back, or disable. */
    method Recover(reason: string, ghost plan: TunnelPlan, ghost before: seq<Call>, ghost failed: seq<Call>)
      returns (outcome: Outcome)
      requires f.Lawful() && OnlyGranted(system.log, granted) && system.Obedient()
      requires (previous.Some? ==> previous.value in granted)
      requires (previous.None? <==> source.None?) && Sourced(previous, source)
      requires system.log == before + failed && FailedApply(failed, plan) && reason == FailureReason(failed)
      modifies this`previous, this`source, system
      ensures Valid()
      ensures before <= system.log
      ensures ApplyRun(system.log[|before|..], plan, old(previous), previous, outcome)
      ensures outcome.status != Applied
      ensures source == if outcome.status.RolledBack? then old(source) else None
    {
      hide NativeTunnel.Obedient, Sourced, Verified, OnlyGranted, FailedApply, FailedTwice;
      if previous.None? {
        var ok := DisableTunnel();
        SplitRun(before, failed, system.log);
        return Outcome(Rejected(reason), Digest(NOTHING));
      }
      var target := previous.value;
      var failure := Attempt(target);
      ghost var retried := system.log[|before + failed|..];
      assert system.log == before + failed + retried;
      if failure.None? {
        SplitRun(before, failed, system.log);
        RolledBackRun(system.log[|before|..], failed, plan, target);
        return Outcome(RolledBack(reason), Digest(ReadbackOf(target)));
      }
      Associate(before, failed, retried);
      TwoFailures(failed, retried, plan, target);
      var ok := DisableTunnel();
      SplitRun(before, failed + retried, system.log);
      outcome := Outcome(Rejected("endpoint_rollback_failed"), Digest(NOTHING));
    }
  }

  /** An obedient system applies the plan, or else the remembered one, unless it refuses them. */
  function ObedientStatus(plan: TunnelPlan, before: Option<TunnelPlan>, refused: set<TunnelPlan>): Status {
    if plan !in refused then Applied
    else if before.None? then Rejected("endpoint_apply_failed")
    else if before.value !in refused then RolledBack("endpoint_apply_failed")
    else Rejected("endpoint_rollback_failed")
  }

  lemma ObedientRun(log: seq<Call>, n: nat, plan: TunnelPlan, before: Option<TunnelPlan>, after: Option<TunnelPlan>,
                    outcome: Outcome, refused: set<TunnelPlan>)
    requires n <= |log| && Answered(log, refused) && ApplyRun(log[n..], plan, before, after, outcome)
    ensures outcome.status == ObedientStatus(plan, before, refused)
  {
    hide FailedApply, FailedTwice, Answered;
    var calls := log[n..];
    var m := |log| - 2;
    match outcome.status
    case Applied =>
      assert log[n] == calls[0];
      AnswerAt(log, refused, n);
    case RolledBack(_) =>
      assert calls[..|calls| - 2] == log[n..m];
      OnlyRefusedFail(log, n, m, plan, refused);
      AnswerAt(log, refused, m);
      assert log[m] == calls[|calls| - 2..][0];
    case Rejected(_) =>
      assert calls[..|calls| - 2] == log[n..m];
      if before.None? {
        OnlyRefusedFail(log, n, m, plan, refused);
      } else {
        BothRefused(log, n, m, plan, before.value, refused);
      }
  }

  lemma AnswerAt(log: seq<Call>, refused: set<TunnelPlan>, i: nat)
    requires i < |log| && Answered(log, refused)
    ensures AnsweredAt(log, refused, i)
  {
  }

  lemma CutSlice(log: seq<Call>, n: nat, m: nat, k: nat)
    requires n <= m <= |log| && k <= m - n
    ensures log[n..m][..k] == log[n..n + k] && log[n..m][k..] == log[n + k..m]
  {
  }

  lemma BothRefused(log: seq<Call>, n: nat, m: nat, plan: TunnelPlan, before: TunnelPlan, refused: set<TunnelPlan>)
    requires n <= m <= |log| && Answered(log, refused) && FailedTwice(log[n..m], plan, before)
    ensures plan in refused && before in refused
  {
    var failed := log[n..m];
    var k :| 0 <= k <= |failed| && FailedApply(failed[..k], plan) && FailedApply(failed[k..], before);
    CutSlice(log, n, m, k);
    OnlyRefusedFail(log, n, n + k, plan, refused);
    OnlyRefusedFail(log, n + k, m, before, refused);
  }

  lemma OnlyRefusedFail(log: seq<Call>, n: nat, m: nat, plan: TunnelPlan, refused: set<TunnelPlan>)
    requires n <= m <= |log| && Answered(log, refused)
    ensures FailedApply(log[n..m], plan) ==> plan in refused && FailureReason(log[n..m]) == "endpoint_apply_failed"
  {
    if m == n + 2 {
      assert AnsweredAt(log, refused, n + 1);
    }
    if m > n {
      assert log[n] == log[n..m][0] && AnsweredAt(log, refused, n);
    }
  }

  /** Reading the last two calls off a log that continues before + first. */
  lemma SplitRun(before: seq<Call>, first: seq<Call>, log: seq<Call>)
    requires before + first <= log && |log| == |before| + |first| + 2
    ensures var calls := log[|before|..];
            calls[..|calls| - 2] == first && calls[|calls| - 2..] == log[|before + first|..]
  {
  }

  lemma RolledBackRun(calls: seq<Call>, failed: seq<Call>, plan: TunnelPlan, target: TunnelPlan)
    requires FailedApply(failed, plan) && |calls| >= 2
    requires calls[..|calls| - 2] == failed && calls[|calls| - 2..] == ApplyCalls(target)
    ensures ApplyRun(calls, plan, Some(target), Some(target),
                     Outcome(RolledBack(FailureReason(failed)), Digest(ReadbackOf(target))))
  {
  }

  lemma TwoFailures(first: seq<Call>, second: seq<Call>, plan: TunnelPlan, before: TunnelPlan)
    requires FailedApply(first, plan) && FailedApply(second, before)
    ensures FailedTwice(first + second, plan, before)
  {
    var calls := first + second;
    assert calls[..|first|] == first && calls[|first|..] == second;
  }

  // --- a rollback past expiry ---

  const HOST := Prefix(Address(V4, 0x0a00_0002), 32)
  const ROUTE := Prefix(Address(V4, 0x0a01_0001), 32)

  /** One host, one route, one network lease on it. */
  function Sample(f: Formats, own: Identity, key: string, host: string, mtu: int, expiry: Time): Desired {
    var route := f.showPrefix(ROUTE);
    Desired(1, 1, expiry + 1,
            Some(WireGuard("endpoint", INTERFACE_NAME, own.publicKey, "deny", "routed", mtu, [f.showPrefix(HOST)],
              [route], [],
                           [Peer("peer", key, host, 51820, [route], 0)], [])),
            [NetworkLease("lease", [route], expiry)], [])
  }

  lemma WidthOfV4()
    ensures Pow2(32) == 0x1_0000_0000
  {
    assert Pow2(4) == 2 * Pow2(3) && Pow2(3) == 2 * Pow2(2) && Pow2(2) == 4;
    Pow2Splits(4, 4);
    Pow2Splits(8, 8);
    Pow2Splits(16, 16);
  }

  lemma HostUsable(p: Prefix)
    requires p in {HOST, ROUTE}
    ensures ValidPrefix(p) && UsableCidr(p) && IsGlobalUnicast(p.address) && p.bits == Width(p.address.family) != 0
  {
    WidthOfV4();
    assert BlockSize(p) == Pow2(0) == 1;
    assert p.address.value / 0x100_0000 == 10;
    assert p.address.value / 0x1000_0000 == 0;
    assert 0x0a00 <= p.address.value / 0x1_0000 <= 0x0a01;
  }

  lemma HostWritten(f: Formats, p: Prefix)
    requires f.Lawful() && p in {HOST, ROUTE}
    ensures ValidPrefix(p) && UsableCidr(p) && f.parsePrefix(f.showPrefix(p)) == Some(p)
    ensures SplitPrefix(f, f.showPrefix(p), true) && SplitPrefix(f, f.showPrefix(p), false)
  {
    HostUsable(p);
  }

  lemma SampleAcceptable(f: Formats, own: Identity, key: string, host: string, mtu: int, expiry: Time, now: Time)
    requires f.Lawful() && f.parseKey(key).Some? && f.parseKey(key).value != own.key && f.validHost(host)
    requires 1280 <= mtu <= 1500
    ensures Acceptable(f, Sample(f, own, key, host, mtu, expiry), own, now) <==> now < expiry
  {
    var desired := Sample(f, own, key, host, mtu, expiry);
    if now < expiry {
      SampleLists(f, own, key, host, mtu, expiry);
      SampleScope(f, own, key, host, mtu, expiry, now);
    } else {
      assert !Firewall.NetworkLeaseUsable(desired.networkLeases[0], now);
    }
  }

  lemma SampleLists(f: Formats, own: Identity, key: string, host: string, mtu: int, expiry: Time)
    requires f.Lawful()
    ensures var wg := Sample(f, own, key, host, mtu, expiry).wireGuard.value;
            ListsUsable(f, wg, wg.peers[0]) && f.IsPrefix(f.showPrefix(ROUTE))
  {
    HostWritten(f, HOST);
    HostWritten(f, ROUTE);
  }

  lemma SampleScope(f: Formats, own: Identity, key: string, host: string, mtu: int, expiry: Time, now: Time)
    requires f.Lawful() && now < expiry && f.IsPrefix(f.showPrefix(ROUTE))
    ensures var desired := Sample(f, own, key, host, mtu, expiry); var wg := desired.wireGuard.value;
            ScopeUsable(f, desired, wg, wg.addresses, wg.routes, now)
  {
    HostWritten(f, ROUTE);
    var desired := Sample(f, own, key, host, mtu, expiry);
    assert f.showPrefix(ROUTE) in desired.networkLeases[0].cidrs;
    assert NetworkLeaseCovers(f, desired.networkLeases[0], ROUTE, now);
  }

  /** A configuration is applied at t0; later, its lease over, the system refuses the next one, and the rollback
      puts the expired plan back in force. */
  method RollsBackPastExpiry(f: Formats, own: Identity, key: string, host: string, t0: Time, expiry: Time, now: Time)
    returns (executor: Executor, outcome: Outcome)
    requires f.Lawful() && f.parseKey(key).Some? && f.parseKey(key).value != own.key && f.validHost(host)
    requires t0 < expiry <= now
    ensures var first := Sample(f, own, key, host, 1280, expiry);
            && outcome.status == RolledBack("endpoint_apply_failed")
            && Acceptable(f, first, own, t0) && !Acceptable(f, first, own, now)
            && Verified(executor.system.log, PlanOf(f, first, own))
  {
    var first, second := Sample(f, own, key, host, 1280, expiry), Sample(f, own, key, host, 1281, now + 1);
    SampleAcceptable(f, own, key, host, 1280, expiry, t0);
    SampleAcceptable(f, own, key, host, 1280, expiry, now);
    SampleAcceptable(f, own, key, host, 1281, now + 1, now);
    var system := new NativeTunnel(true, {PlanOf(f, second, own)});
    executor := new Executor(f, own, system);
    outcome := executor.Apply(first, t0);
    outcome := executor.Apply(second, now);
  }
}
