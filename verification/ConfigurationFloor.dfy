/** The configuration floor: configurations never regress or change under one version, and a pending VPN
    cleanup blocks them, across failed writes and restarts. */
module ConfigurationFloor {
  import opened Wrappers
  import opened Protocol

  /** What a configuration enforces; admission and intervals have no part in it. */
  datatype Enforcement = Enforcement(configurationVersion: int, policyVersion: int, body: string)

  datatype Configuration = Configuration(enforcement: Enforcement, admission: string, intervals: string)

  datatype Pending = Pending(sessionId: string, leaseIds: seq<string>, reason: string)

  datatype Floor = Floor(pending: Option<Pending>, version: int, identity: string,
                         configurationVersion: int, policyVersion: int, digest: string)

  const ZERO := Floor(None, 0, "", 0, 0, "")
  const MAX_LEASES := 768

  /** Content digests: told apart, and recognisable by their form. */
  datatype Digests = Digests(of: Enforcement -> string, wellFormed: string -> bool)
  {
    ghost predicate Lawful() {
      && (forall x, y :: of(x) == of(y) ==> x == y)
      && (forall x :: wellFormed(of(x)))
      && !wellFormed("")
    }
  }

  predicate ValidPending(p: Pending) {
    && ValidIdentifier(p.sessionId) && ValidIdentifier(p.reason)
    && 1 <= |p.leaseIds| <= MAX_LEASES
    && forall i :: 0 <= i < |p.leaseIds| ==> ValidIdentifier(p.leaseIds[i])
  }

  /** What a start accepts. */
  predicate ValidFloor(d: Digests, floor: Floor, identity: string) {
    && floor.version == 1 && floor.identity == identity
    && (floor.pending.Some? ==> ValidPending(floor.pending.value))
    && (|| (floor.configurationVersion == 0 && floor.policyVersion == 0 && floor.digest == "")
        || (floor.configurationVersion > 0 && floor.policyVersion > 0 && d.wellFormed(floor.digest)))
  }

  /** A configuration above the floor, or the one at it. */
  predicate Acceptable(d: Digests, floor: Floor, e: Enforcement) {
    && floor.pending.None?
    && e.configurationVersion >= 1 && e.policyVersion >= 1
    && e.configurationVersion >= floor.configurationVersion && e.policyVersion >= floor.policyVersion
    && (e.configurationVersion == floor.configurationVersion ==> d.of(e) == floor.digest)
  }

  // --- the history of accepted configurations ---

  /** By configuration version, everything accepted so far. */
  type History = map<int, Enforcement>

  /** The floor is the highest accepted configuration, and policies only rose on the way. */
  ghost predicate Summarizes(d: Digests, floor: Floor, history: History) {
    && (forall v :: v in history ==>
          && 1 <= v <= floor.configurationVersion && history[v].configurationVersion == v
          && 1 <= history[v].policyVersion <= floor.policyVersion)
    && (forall v, w :: v in history && w in history && v <= w ==> history[v].policyVersion <= history[w].policyVersion)
    && (if floor.configurationVersion == 0 then floor.policyVersion == 0 && floor.digest == ""
        else && floor.configurationVersion in history
             && history[floor.configurationVersion].policyVersion == floor.policyVersion
             && d.of(history[floor.configurationVersion]) == floor.digest)
  }

  function Raised(d: Digests, identity: string, e: Enforcement): Floor {
    Floor(None, 1, identity, e.configurationVersion, e.policyVersion, d.of(e))
  }

  /** An acceptable configuration either is the one recorded under its version, or is new and above all. */
  lemma AcceptedOnce(d: Digests, floor: Floor, history: History, e: Enforcement, identity: string)
    requires d.Lawful() && Summarizes(d, floor, history) && Acceptable(d, floor, e)
    ensures e.configurationVersion in history ==> history[e.configurationVersion] == e
    ensures forall v :: v in history ==> v <= e.configurationVersion && history[v].policyVersion <= e.policyVersion
    ensures e.configurationVersion > floor.configurationVersion ==>
              Summarizes(d, Raised(d, identity, e), history[e.configurationVersion := e])
    ensures e.configurationVersion == floor.configurationVersion ==>
              Summarizes(d, floor, history[e.configurationVersion := e])
  {
  }

  lemma BegunIsValid(d: Digests, floor: Floor, history: History, identity: string, p: Pending)
    requires d.Lawful() && Summarizes(d, floor, history)
    ensures ValidFloor(d, floor.(version := 1, identity := identity, pending := Some(p)), identity) <==> ValidPending(p)
    ensures ValidFloor(d, floor.(version := 1, identity := identity, pending := None), identity)
  {
  }

  // --- the state file ---

  /** The protected file; without a path nothing is kept. The history is that of the file's life, or without
      a file that of one process. */
  class FloorFile {
    const digests: Digests
    const hasPath: bool
    /** No call fails. */
    const reliable: bool
    const identity: string
    var durable: Option<Floor>
    ghost var history: History

    constructor (digests: Digests, hasPath: bool, reliable: bool, identity: string)
      requires digests.Lawful()
      ensures Safe() && this.digests == digests && this.hasPath == hasPath && this.reliable == reliable
      ensures this.identity == identity && durable.None? && history == map[]
    {
      this.digests, this.hasPath, this.reliable, this.identity := digests, hasPath, reliable, identity;
      durable, history := None, map[];
    }

    ghost function Kept(): Floor
      reads this
    {
      if durable.Some? then durable.value else ZERO
    }

    /** Holds at every step, so at every crash. */
    ghost predicate Safe()
      reads this
    {
      && digests.Lawful() && (!hasPath ==> durable.None?)
      && (hasPath ==> Summarizes(digests, Kept(), history))
      && (durable.Some? ==> durable.value.version == 1 && durable.value.identity == identity)
    }

    /** Replaces the file; a failed save leaves it. What memory says is at least as cautious. */
    method Save(floor: Floor, ghost more: History, ghost memory: Floor) returns (ok: bool)
      requires Safe() && floor.version == 1 && floor.identity == identity
      requires Summarizes(digests, floor, more)
      requires floor.configurationVersion >= Kept().configurationVersion && floor.policyVersion >= Kept().policyVersion
      requires forall v :: v in history ==> v in more && more[v] == history[v]
      requires floor.pending.Some? ==> memory.pending.Some?
      modifies this
      ensures !hasPath || reliable ==> ok
      ensures Safe() && history == if ok then more else old(history)
      ensures durable == if ok && hasPath then Some(floor) else old(durable)
    {
      if !hasPath {
        history := more;
        return true;
      }
      var fails: bool := *;
      ok := !fails || reliable;
      if ok {
        durable, history := Some(floor), more;
      }
    }
  }

  // --- the manager ---

  class Manager {
    const file: FloorFile
    var floor: Floor
    var sessionId: string
    var leaseIds: seq<string>
    var cleanupReason: string

    /** Memory and file agree on versions and digest, and memory is never less cautious about a cleanup. */
    ghost predicate Valid()
      reads this, file
    {
      && file.Safe() && Summarizes(file.digests, floor, file.history)
      && (floor.pending.Some? ==> floor.version == 1 && floor.identity == file.identity)
      && (file.hasPath ==>
            && floor.configurationVersion == file.Kept().configurationVersion
            && floor.policyVersion == file.Kept().policyVersion && floor.digest == file.Kept().digest
            && (file.Kept().pending.Some? ==> floor.pending.Some?))
    }

    /** Used by Restore alone: a process that has read nothing. */
    constructor (file: FloorFile)
      requires file.Safe()
      ensures this.file == file && floor == ZERO && sessionId == "" && leaseIds == []
    {
      this.file, floor, sessionId, leaseIds, cleanupReason := file, ZERO, "", [], "";
    }

    /** Records a configuration. Success means it is at or above everything accepted before, and is the only one
        ever accepted under its version. */
    method RememberConfiguration(desired: Configuration) returns (ok: bool)
      requires Valid()
      modifies this`floor, file
      ensures Valid()
      ensures ok ==> Acceptable(file.digests, old(floor), desired.enforcement)
      ensures ok ==> var e := desired.enforcement;
                     && file.history == old(file.history)[e.configurationVersion := e]
                     && (e.configurationVersion in old(file.history) ==> old(file.history)[e.configurationVersion] == e)
                     && (forall v :: v in old(file.history) ==>
                           v <= e.configurationVersion && old(file.history)[v].policyVersion <= e.policyVersion)
      ensures ok ==> floor.configurationVersion == desired.enforcement.configurationVersion && floor.pending.None?
      ensures ok && file.hasPath ==>
                file.Kept().configurationVersion == floor.configurationVersion && file.Kept().digest == floor.digest
      ensures !ok ==> floor == old(floor) && file.durable == old(file.durable) && file.history == old(file.history)
      ensures file.reliable && Acceptable(file.digests, old(floor), desired.enforcement) ==> ok
      ensures !ok && Acceptable(file.digests, floor, desired.enforcement) ==>
                file.hasPath && desired.enforcement.configurationVersion > floor.configurationVersion
    {
      var e := desired.enforcement;
      var digest := file.digests.of(e);
      if floor.pending.Some? {
        return false;
      }
      if e.configurationVersion < 1 || e.policyVersion < 1 || e.configurationVersion < floor.configurationVersion
         || e.policyVersion < floor.policyVersion
         || (e.configurationVersion == floor.configurationVersion && digest != floor.digest) {
        return false;
      }
      AcceptedOnce(file.digests, floor, file.history, e, file.identity);
      if e.configurationVersion == floor.configurationVersion {
        assert file.history[e.configurationVersion := e] == file.history;
        return true;
      }
      var raised := Raised(file.digests, file.identity, e);
      ok := file.Save(raised, file.history[e.configurationVersion := e], floor);
      if ok {
        floor := raised;
      }
    }

    /** Memory turns pending before the file; versions stay. */
    method BeginVPNCleanup(session: string, leases: seq<string>, reason: string) returns (ok: bool)
      requires Valid()
      modifies this`floor, file
      ensures Valid() && file.history == old(file.history)
      ensures session == "" || leases == [] ==> ok && floor == old(floor) && file.durable == old(file.durable)
      ensures session != "" && leases != [] ==>
                floor == old(floor).(version := 1, identity := file.identity,
                                     pending := Some(Pending(session, leases, reason)))
      ensures session != "" && leases != [] && file.hasPath ==>
                file.durable == if ok then Some(floor) else old(file.durable)
      ensures file.reliable ==> ok
    {
      if session == "" || |leases| == 0 {
        return true;
      }
      floor := floor.(version := 1, identity := file.identity, pending := Some(Pending(session, leases, reason)));
      ok := file.Save(floor, file.history, floor);
    }

    /** The file turns first, then memory; a failed save keeps the cleanup pending in both. */
    method FinishVPNCleanup() returns (ok: bool)
      requires Valid()
      modifies this`floor, file
      ensures Valid() && file.history == old(file.history)
      ensures ok ==> floor == old(floor).(pending := None) && file.Kept().pending.None?
      ensures !ok ==> floor == old(floor) && file.durable == old(file.durable)
      ensures file.reliable || !file.hasPath ==> ok
    {
      if floor.pending.None? {
        return true;
      }
      var done := floor.(pending := None);
      ok := file.Save(done, file.history, floor);
      if ok {
        floor := done;
      }
    }
  }

  /** A start. A file that cannot be read or is not valid refuses it; a pending cleanup is resumed. */
  method RestoreConfigurationFloor(file: FloorFile) returns (manager: Manager?)
    requires file.Safe()
    modifies file`history
    ensures manager != null ==> fresh(manager) && manager.file == file && manager.Valid()
    ensures file.Safe() && (file.hasPath ==> file.history == old(file.history))
    ensures !file.hasPath ==> manager != null && manager.floor == ZERO && file.history == map[]
    ensures manager != null && file.hasPath ==> manager.floor == file.Kept()
    ensures manager != null && file.durable.Some? && file.durable.value.pending.Some? ==>
              var pending := file.durable.value.pending.value;
              && manager.sessionId == pending.sessionId && manager.leaseIds == pending.leaseIds
              && manager.cleanupReason == pending.reason
    ensures file.durable.Some? && !ValidFloor(file.digests, file.durable.value, file.identity) ==> manager == null
    ensures file.reliable && file.hasPath ==>
              (manager != null <==> file.durable.Some? ==> ValidFloor(file.digests, file.durable.value, file.identity))
  {
    manager := new Manager(file);
    if !file.hasPath {
      file.history := map[];
      return;
    }
    var fails: bool := *;
    if file.durable.None? {
      return if fails && !file.reliable then null else manager;
    }
    var floor := file.durable.value;
    if (fails && !file.reliable) || !ValidFloor(file.digests, floor, file.identity) {
      return null;
    }
    manager.floor := floor;
    if floor.pending.Some? {
      manager.sessionId, manager.leaseIds, manager.cleanupReason :=
        floor.pending.value.sessionId, floor.pending.value.leaseIds, floor.pending.value.reason;
    }
  }

  // --- what a start forgets, exactly ---

  /** After a configuration was accepted, a start and then an otherwise well-formed configuration that the floor rules
      out: it is accepted exactly if there is no state path. */
  method RestartForgetsExactly(manager: Manager, high: Configuration, low: Configuration)
    returns (kept: bool, started: bool, again: bool)
    requires manager.Valid() && RulesOut(manager.file.digests, manager.file.identity, high.enforcement, low.enforcement)
    modifies manager, manager.file
    ensures kept ==> (again <==> !manager.file.hasPath)
    ensures kept && manager.file.reliable ==> started
    ensures !manager.file.hasPath && Acceptable(manager.file.digests, old(manager.floor), high.enforcement) ==> kept
  {
    var file := manager.file;
    kept := manager.RememberConfiguration(high);
    ghost var top := manager.floor;
    var next := RestoreConfigurationFloor(file);
    started, again := next != null, false;
    if next != null {
      again := next.RememberConfiguration(low);
    }
  }

  /** The configuration is well formed, and below another one or a different one under its version. */
  ghost predicate RulesOut(d: Digests, identity: string, high: Enforcement, low: Enforcement) {
    && low.configurationVersion >= 1 && low.policyVersion >= 1
    && !Acceptable(d, Raised(d, identity, high), low)
  }

  /** So without a state path a version that was ruled out comes back with the next start. */
  method WithoutPathARestartForgets(digests: Digests, identity: string, high: Configuration, low: Configuration)
    returns (accepted: seq<bool>)
    requires digests.Lawful() && RulesOut(digests, identity, high.enforcement, low.enforcement)
    requires high.enforcement.configurationVersion >= 1 && high.enforcement.policyVersion >= 1
    ensures accepted == [true, false, true]
  {
    var file := new FloorFile(digests, false, true, identity);
    var manager := RestoreConfigurationFloor(file);
    var first := manager.RememberConfiguration(high);
    var second := manager.RememberConfiguration(low);
    var kept, started, again := RestartForgetsExactly(manager, high, low);
    accepted := [first, second, again];
  }

  // --- what beginning a cleanup gets wrong, exactly ---

  /** A begun cleanup is resumed at the next start exactly if it names valid identifiers, and at most 768 leases;
      otherwise it is saved all the same, and the start refused. */
  method BegunIsValidExactly(manager: Manager, session: string, leases: seq<string>, reason: string)
    returns (ok: bool, next: Manager?)
    requires manager.Valid() && manager.file.hasPath && session != "" && leases != []
    modifies manager, manager.file
    ensures ok && next != null ==> ValidPending(Pending(session, leases, reason))
    ensures manager.file.reliable ==>
              ok && (next != null <==> && ValidIdentifier(session) && ValidIdentifier(reason) && |leases| <= 768
                                       && forall i :: 0 <= i < |leases| ==> ValidIdentifier(leases[i]))
    ensures ok && next != null ==> next.sessionId == session && next.leaseIds == leases && next.cleanupReason == reason
  {
    BegunIsValid(manager.file.digests, manager.floor, manager.file.history, manager.file.identity,
      Pending(session, leases, reason));
    ok := manager.BeginVPNCleanup(session, leases, reason);
    next := RestoreConfigurationFloor(manager.file);
  }

  /** So a session over more than 768 leases, ended, keeps the service from starting again. */
  method ManyLeasesLockOut(digests: Digests, identity: string, session: string, leases: seq<string>, reason: string)
    returns (ok: bool, next: Manager?)
    requires digests.Lawful() && session != "" && |leases| > MAX_LEASES
    ensures ok && next == null
  {
    var file := new FloorFile(digests, true, true, identity);
    var manager := RestoreConfigurationFloor(file);
    ok, next := BegunIsValidExactly(manager, session, leases, reason);
  }

  // --- whole runs ---

  datatype Step =
    | DoRemember(desired: Configuration)
    | DoBegin(session: string, leases: seq<string>, reason: string)
    | DoFinish
    | Restart

  /** Versions never decrease, and one configuration version stands for one configuration. */
  ghost predicate Rising(accepted: seq<Enforcement>) {
    forall i, j :: 0 <= i < j < |accepted| ==>
      && accepted[i].configurationVersion <= accepted[j].configurationVersion
      && accepted[i].policyVersion <= accepted[j].policyVersion
      && (accepted[i].configurationVersion == accepted[j].configurationVersion ==> accepted[i] == accepted[j])
  }

  ghost predicate Remembered(accepted: seq<Enforcement>, history: History) {
    forall i :: 0 <= i < |accepted| ==>
      accepted[i].configurationVersion in history && history[accepted[i].configurationVersion] == accepted[i]
  }

  lemma NothingAccepted(history: History)
    ensures Rising([]) && Remembered([], history) && Above([], history) && Extends(history, history)
  {
  }

  /** The accepted configurations are above those of an earlier history. */
  ghost predicate Above(accepted: seq<Enforcement>, earlier: History) {
    forall i, v :: 0 <= i < |accepted| && v in earlier ==>
      v <= accepted[i].configurationVersion && earlier[v].policyVersion <= accepted[i].policyVersion
  }

  ghost predicate Extends(later: History, earlier: History) {
    forall v :: v in earlier ==> v in later && later[v] == earlier[v]
  }

  lemma Appended(accepted: seq<Enforcement>, history: History, e: Enforcement, earlier: History)
    requires Rising(accepted) && Remembered(accepted, history) && Above(accepted, earlier) && Extends(history, earlier)
    requires e.configurationVersion in history ==> history[e.configurationVersion] == e
    requires forall v :: v in history ==> v <= e.configurationVersion && history[v].policyVersion <= e.policyVersion
    ensures Rising(accepted + [e]) && Remembered(accepted + [e], history[e.configurationVersion := e])
    ensures Above(accepted + [e], earlier) && Extends(history[e.configurationVersion := e], earlier)
  {
    assert forall i :: 0 <= i < |accepted| ==> accepted[i].configurationVersion in history;
  }

  /** Over every run with a state path, whatever saves fail and wherever it restarts: what is accepted rises, above
      all that was accepted before the run. A run ends early when a start is refused. */
  method Run(file: FloorFile, steps: seq<Step>) returns (accepted: seq<Enforcement>)
    requires file.Safe() && file.hasPath
    modifies file
    ensures file.Safe() && Rising(accepted) && Remembered(accepted, file.history)
    ensures Extends(file.history, old(file.history)) && Above(accepted, old(file.history))
  {
    hide Rising, Remembered, Above, Extends, Summarizes;
    accepted := [];
    NothingAccepted(file.history);
    var manager := RestoreConfigurationFloor(file);
    if manager == null {
      return;
    }
    for i := 0 to |steps|
      invariant manager != null && fresh(manager) && manager.file == file && manager.Valid()
      invariant Rising(accepted) && Remembered(accepted, file.history)
      invariant Extends(file.history, old(file.history)) && Above(accepted, old(file.history))
    {
      if steps[i].Restart? {
        manager := RestoreConfigurationFloor(file);
        if manager == null {
          return;
        }
      } else {
        ghost var before := file.history;
        var taken := TakeStep(manager, steps[i]);
        if taken.Some? {
          Appended(accepted, before, taken.value, old(file.history));
          accepted := accepted + [taken.value];
        }
      }
    }
  }

  /** One call; what it accepted was not contradicted before and is above all accepted before. */
  method TakeStep(manager: Manager, step: Step) returns (taken: Option<Enforcement>)
    requires manager.Valid() && !step.Restart?
    modifies manager, manager.file
    ensures manager.Valid()
    ensures taken.None? ==> manager.file.history == old(manager.file.history)
    ensures taken.Some? ==>
              var e, before := taken.value, old(manager.file.history);
              && manager.file.history == before[e.configurationVersion := e]
              && (e.configurationVersion in before ==> before[e.configurationVersion] == e)
              && forall v :: v in before ==> v <= e.configurationVersion && before[v].policyVersion <= e.policyVersion
  {
    taken := None;
    match step {
      case DoRemember(desired) =>
        var ok := manager.RememberConfiguration(desired);
        taken := if ok then Some(desired.enforcement) else None;
      case DoBegin(session, leases, reason) =>
        var ok := manager.BeginVPNCleanup(session, leases, reason);
      case DoFinish =>
        var ok := manager.FinishVPNCleanup();
    }
  }
}
