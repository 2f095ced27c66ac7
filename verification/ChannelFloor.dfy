/** The native channel floor: the accepted policy revision and its controls, across failed writes, crashes,
    restarts and the loss of the floor file. */
module ChannelFloor {
  import opened Wrappers
  import Protocol

  type Time = Protocol.Time

  datatype Controls = Controls(usb: bool, print_: bool, clipboard: bool)

  const NO_CONTROLS := Controls(false, false, false)

  datatype Desired = Desired(deviceId: string, runtimeId: string, configured: bool, policyVersion: int,
                             controls: Controls, validUntil: Time, challenge: string)

  datatype Floor = Floor(identity: string, revision: int, controls: Controls)

  /** Every accepted control set, by revision. */
  type History = map<int, Controls>

  /** The floor is the highest accepted revision. */
  ghost predicate Tops(floor: Floor, history: History) {
    && (forall r :: r in history ==> r <= floor.revision)
    && floor.revision in history && history[floor.revision] == floor.controls
  }

  /** Nothing was accepted, or the floor is the highest of it. */
  ghost predicate StartsFrom(floor: Floor, history: History) {
    (history == map[] && floor.revision == 0 && floor.controls == NO_CONTROLS) || Tops(floor, history)
  }

  predicate Loadable(floor: Floor, identity: string) {
    floor.identity == identity && floor.revision >= 1
  }

  /** Not below the floor, and at the floor with the same controls. */
  predicate AtOrAbove(floor: Floor, d: Desired) {
    d.policyVersion >= floor.revision && (d.policyVersion == floor.revision ==> d.controls == floor.controls)
  }

  /** A revision never carries two control sets, and accepting raises the top. */
  lemma AcceptedOnce(floor: Floor, history: History, d: Desired, identity: string)
    requires StartsFrom(floor, history) && AtOrAbove(floor, d)
    ensures d.policyVersion in history ==> history[d.policyVersion] == d.controls
    ensures forall r :: r in history ==> r <= d.policyVersion
    ensures Tops(Floor(identity, d.policyVersion, d.controls), history[d.policyVersion := d.controls])
  {
  }

  /** The protected files: the acceptance marker and the floor. */
  class Files {
    /** Whether the channel system records the first acceptance. */
    const recorder: bool
    /** No call fails. */
    const reliable: bool
    const identity: string
    var marker: bool
    var floor: Option<Floor>
    /** Whether the system has restrictions of its own to restore. */
    var journalled: bool
    /** What was accepted, since a start last found nothing to go by. */
    ghost var history: History
    ghost var lost: bool

    /** Holds at every step, so at every crash: the marker is older than anything accepted. */
    ghost predicate Safe()
      reads this
    {
      && (recorder && history != map[] ==> marker)
      && (floor.Some? ==> Tops(floor.value, history) && floor.value.identity == identity)
      && (floor.None? && !lost ==> history == map[])
    }

    constructor (identity: string, recorder: bool, reliable: bool)
      ensures Safe() && this.identity == identity && this.recorder == recorder && this.reliable == reliable
      ensures !marker && floor.None? && !journalled && history == map[] && !lost
    {
      this.identity, this.recorder, this.reliable := identity, recorder, reliable;
      marker, floor, journalled, history, lost := false, None, false, map[], false;
    }

    method SaveMarker() returns (ok: bool)
      requires Safe()
      modifies this`marker
      ensures Safe() && marker == (old(marker) || ok) && (reliable ==> ok)
    {
      var fails: bool := *;
      ok := !fails || reliable;
      if ok {
        marker := true;
      }
    }

    /** Replaces the floor; a failed save leaves it. */
    method SaveFloor(next: Floor) returns (ok: bool)
      requires Safe() && (recorder ==> marker) && next.identity == identity
      requires Tops(next, history[next.revision := next.controls])
      requires next.revision in history ==> history[next.revision] == next.controls
      requires floor.Some? ==> next.revision >= floor.value.revision
      modifies this`floor, this`history, this`lost
      ensures Safe() && (ok ==> !lost) && (!ok ==> lost == old(lost))
      ensures floor == if ok then Some(next) else old(floor)
      ensures history == if ok then old(history)[next.revision := next.controls] else old(history)
      ensures reliable ==> ok
    {
      var fails: bool := *;
      ok := !fails || reliable;
      if ok {
        floor, history, lost := Some(next), history[next.revision := next.controls], false;
      }
    }

    /** The floor file disappears. */
    method LoseFloor()
      requires Safe()
      modifies this`floor, this`lost
      ensures Safe() && floor.None? && lost
    {
      floor, lost := None, true;
    }
  }

  datatype Receipt = Receipt(policyVersion: int, challenge: string)

  class ChannelManager {
    const files: Files
    const deviceId: string
    const runtimeId: string
    var floor: Floor
    var validUntil: Time
    /** The channel system's memory of the marker. */
    var accepted: bool

    /** Memory is what was accepted last, and is the file unless that is lost. */
    ghost predicate Valid()
      reads this, files
    {
      && files.Safe() && StartsFrom(floor, files.history)
      && (files.floor.Some? ==> files.floor.value == floor)
      && (accepted ==> files.marker)
    }

    constructor (files: Files, deviceId: string, runtimeId: string)
      ensures this.files == files && this.deviceId == deviceId && this.runtimeId == runtimeId
      ensures floor == Floor(files.identity, 0, NO_CONTROLS) && accepted == files.marker
    {
      this.files, this.deviceId, this.runtimeId := files, deviceId, runtimeId;
      floor, validUntil, accepted := Floor(files.identity, 0, NO_CONTROLS), 0, files.marker;
    }

    method RecordPolicyAcceptance() returns (ok: bool)
      requires Valid()
      modifies this`accepted, files`marker
      ensures Valid() && (ok ==> files.marker && accepted) && (!ok ==> files.marker == old(files.marker))
      ensures files.reliable ==> ok
    {
      if accepted {
        return true;
      }
      ok := files.SaveMarker();
      if ok {
        accepted := true;
      }
    }

    /** Accepts a desired policy. `valid` is the contract library's verdict. A configured policy is durable, its
        marker first, before it counts; an unconfigured one only extends the validity. */
    method Accept(d: Desired, valid: bool) returns (ok: bool)
      requires Valid()
      modifies this, files
      ensures Valid() && floor.revision >= old(floor).revision
      ensures ok ==> valid && AtOrAbove(old(floor), d) && d.deviceId == deviceId && d.runtimeId == runtimeId
      ensures ok && d.configured ==>
                && files.floor == Some(floor) && floor == Floor(files.identity, d.policyVersion, d.controls)
                && (files.recorder ==> files.marker)
                && files.history == old(files.history)[d.policyVersion := d.controls]
                && (d.policyVersion in old(files.history) ==> old(files.history)[d.policyVersion] == d.controls)
                && (forall r :: r in old(files.history) ==> r <= d.policyVersion)
      ensures !ok || !d.configured ==>
                floor == old(floor) && files.floor == old(files.floor) && files.history == old(files.history)
      ensures files.lost ==> old(files.lost)
      ensures files.journalled == old(files.journalled)
      ensures validUntil == if ok then d.validUntil else old(validUntil)
      ensures files.reliable ==>
                (ok <==> valid && AtOrAbove(old(floor), d) && d.deviceId == deviceId && d.runtimeId == runtimeId)
    {
      if !valid || d.deviceId != deviceId || d.runtimeId != runtimeId || d.policyVersion < floor.revision
         || (d.policyVersion == floor.revision && d.controls != floor.controls) {
        return false;
      }
      if !d.configured {
        validUntil := d.validUntil;
        return true;
      }
      var next := Floor(files.identity, d.policyVersion, d.controls);
      if files.recorder {
        ok := RecordPolicyAcceptance();
        if !ok {
          return;
        }
      }
      AcceptedOnce(floor, files.history, d, files.identity);
      ok := files.SaveFloor(next);
      if ok {
        floor, validUntil := next, d.validUntil;
      }
    }

    /** One round of the loop. The last accepted controls are enforced whether or not the control plane was
        reached or its answer accepted, and a receipt names the revision that was enforced. */
    method Round(answer: Option<Desired>, valid: bool) returns (enforced: Option<Controls>, receipt: Option<Receipt>)
      requires Valid()
      modifies this, files
      ensures Valid() && floor.revision >= old(floor).revision
      ensures enforced == if floor.revision > 0 then Some(floor.controls) else None
      ensures receipt.Some? ==> && answer.Some? && valid && AtOrAbove(old(floor), answer.value)
                                && receipt.value == Receipt(floor.revision, answer.value.challenge)
    {
      var desired := None;
      if answer.Some? {
        var ok := Accept(answer.value, valid);
        if ok {
          desired := answer;
        }
      }
      var controls, revision := floor.controls, floor.revision;
      enforced := if revision > 0 then Some(controls) else None;
      receipt := if desired.Some? then Some(Receipt(revision, desired.value.challenge)) else None;
    }
  }

  /** A start. Without the floor file it is refused if a restriction or an acceptance is on record; otherwise it begins
      from zero, whatever was accepted before. */
  method NewChannelManager(files: Files, deviceId: string, runtimeId: string) returns (manager: ChannelManager?)
    requires files.Safe()
    modifies files`history, files`lost
    ensures manager != null ==>
              && fresh(manager) && manager.files == files && manager.deviceId == deviceId
                && manager.runtimeId == runtimeId
              && manager.Valid()
    ensures files.Safe() && (files.recorder || files.journalled || !old(files.lost) ==>
              files.history == old(files.history))
    ensures files.lost ==> old(files.lost)
    ensures files.floor.None? ==> (manager != null <==> !(files.recorder && files.marker) && !files.journalled)
    ensures files.floor.None? && manager != null ==> manager.floor == Floor(files.identity, 0, NO_CONTROLS)
    ensures files.floor.Some? && !Loadable(files.floor.value, files.identity) ==> manager == null
    ensures manager != null && files.floor.Some? ==> manager.floor == files.floor.value
    ensures files.reliable && files.floor.Some? ==> (manager != null <==> Loadable(files.floor.value, files.identity))
  {
    manager := new ChannelManager(files, deviceId, runtimeId);
    if files.floor.None? {
      if (files.recorder && files.marker) || files.journalled {
        return null;
      }
      files.history, files.lost := map[], false;
      return;
    }
    var fails: bool := *;
    if (fails && !files.reliable) || !Loadable(files.floor.value, files.identity) {
      return null;
    }
    manager.floor := files.floor.value;
  }

  /** An accepted configured policy loads at the next start exactly if its version is at least one. */
  method LoadsExactly(manager: ChannelManager, d: Desired, valid: bool) returns (ok: bool, next: ChannelManager?)
    requires manager.Valid() && d.configured
    modifies manager, manager.files
    ensures ok && next != null ==> d.policyVersion >= 1
    ensures manager.files.reliable && ok ==> (next != null <==> d.policyVersion >= 1)
    ensures manager.files.reliable ==>
              (ok <==> && valid && AtOrAbove(old(manager.floor), d)
                       && d.deviceId == manager.deviceId && d.runtimeId == manager.runtimeId)
  {
    ok := manager.Accept(d, valid);
    next := NewChannelManager(manager.files, manager.deviceId, manager.runtimeId);
  }

  /** So the very first policy, if it has version 0 and no controls and passes the library's check, is accepted and
      keeps the service from ever starting again. */
  method VersionZeroLocksOut(identity: string, deviceId: string, runtimeId: string, recorder: bool)
    returns (ok: bool, next: ChannelManager?)
    ensures ok && next == null
  {
    var files := new Files(identity, recorder, true);
    var manager := NewChannelManager(files, deviceId, runtimeId);
    ok, next := LoadsExactly(manager, Desired(deviceId, runtimeId, true, 0, NO_CONTROLS, 0, "challenge"), true);
  }

  // --- what a start forgets, exactly ---

  /** After a configured policy was accepted, perhaps the loss of the floor file, a start, and then an otherwise
      acceptable policy that the floor rules out: undisturbed, it is accepted exactly if the file was lost on a system
      that neither records the first acceptance nor has restrictions of its own to restore. */
  method RestartForgetsExactly(manager: ChannelManager, high: Desired, lose: bool, low: Desired, valid: bool)
    returns (kept: bool, again: bool)
    requires manager.Valid() && high.configured
    requires RulesOut(manager.files.identity, high, low, manager.deviceId, manager.runtimeId)
    modifies manager, manager.files
    ensures kept && again ==> lose && !manager.files.recorder && !old(manager.files.journalled)
    ensures manager.files.reliable ==>
              (kept <==> valid && AtOrAbove(old(manager.floor), high) && high.deviceId == manager.deviceId
                         && high.runtimeId == manager.runtimeId)
    ensures kept && manager.files.reliable ==>
              (again <==> lose && !manager.files.recorder && !old(manager.files.journalled))
  {
    var files := manager.files;
    kept := manager.Accept(high, valid);
    if lose {
      files.LoseFloor();
    }
    var next := NewChannelManager(files, manager.deviceId, manager.runtimeId);
    again := false;
    if next != null {
      again := next.Accept(low, valid);
    }
  }

  /** The policy is for this device and at least of version one, and the floor of another one rules it out. */
  predicate RulesOut(identity: string, high: Desired, low: Desired, deviceId: string, runtimeId: string) {
    && low.deviceId == deviceId && low.runtimeId == runtimeId && low.policyVersion >= 1
    && !AtOrAbove(Floor(identity, high.policyVersion, high.controls), low)
  }

  /** So without a recorder a revision that was ruled out comes back once the floor file is lost. */
  method WithoutRecorderLossForgets(identity: string, deviceId: string, runtimeId: string, high: Desired, low: Desired)
    returns (accepted: seq<bool>)
    requires high.configured && high.deviceId == deviceId && high.runtimeId == runtimeId && high.policyVersion >= 1
    requires RulesOut(identity, high, low, deviceId, runtimeId)
    ensures accepted == [true, false, true]
  {
    var files := new Files(identity, false, true);
    var manager := NewChannelManager(files, deviceId, runtimeId);
    var first := manager.Accept(high, true);
    var second := manager.Accept(low, true);
    var kept, again := RestartForgetsExactly(manager, high, true, low, true);
    accepted := [first, second, again];
  }

  // --- whole runs ---

  datatype Step = DoAccept(desired: Desired, valid: bool) | FileLost | Restart

  /** Revisions never decrease, and one revision stands for one control set. */
  ghost predicate Rising(accepted: seq<Desired>) {
    forall i, j :: 0 <= i < j < |accepted| ==>
      && accepted[i].policyVersion <= accepted[j].policyVersion
      && (accepted[i].policyVersion == accepted[j].policyVersion ==> accepted[i].controls == accepted[j].controls)
  }

  ghost predicate Remembered(accepted: seq<Desired>, history: History) {
    forall i :: 0 <= i < |accepted| ==>
      accepted[i].policyVersion in history && history[accepted[i].policyVersion] == accepted[i].controls
  }

  lemma Appended(accepted: seq<Desired>, history: History, d: Desired)
    requires Rising(accepted) && Remembered(accepted, history)
    requires d.policyVersion in history ==> history[d.policyVersion] == d.controls
    requires forall r :: r in history ==> r <= d.policyVersion
    ensures Rising(accepted + [d]) && Remembered(accepted + [d], history[d.policyVersion := d.controls])
  {
    assert forall i :: 0 <= i < |accepted| ==> accepted[i].policyVersion in history;
  }

  lemma NothingAccepted(history: History)
    ensures Rising([]) && Remembered([], history)
  {
  }

  /** The accepted revisions are not below those of an earlier history. */
  ghost predicate Above(accepted: seq<Desired>, earlier: History) {
    forall i, r :: 0 <= i < |accepted| && r in earlier ==> r <= accepted[i].policyVersion
  }

  /** Over every run, whatever saves fail and wherever it restarts, on a system that records the first acceptance or
      whose floor file is never lost: the accepted configured policies rise, above all accepted before the run. */
  method Run(files: Files, deviceId: string, runtimeId: string, steps: seq<Step>) returns (accepted: seq<Desired>)
    requires files.Safe()
    modifies files
    ensures files.Safe()
    ensures old(Kept(files, steps)) ==>
              Rising(accepted) && Remembered(accepted, files.history) && Above(accepted, old(files.history))
  {
    hide Rising, Remembered;
    accepted := [];
    ghost var kept := Kept(files, steps);
    NothingAccepted(files.history);
    var manager := NewChannelManager(files, deviceId, runtimeId);
    if manager == null {
      return;
    }
    for i := 0 to |steps|
      invariant manager != null && fresh(manager) && manager.files == files && manager.Valid()
      invariant kept ==> Kept(files, steps)
      invariant kept ==> Rising(accepted) && Remembered(accepted, files.history) && Above(accepted, old(files.history))
      invariant kept ==> forall r :: r in old(files.history) ==> r in files.history
    {
      match steps[i] {
        case DoAccept(desired, valid) =>
          ghost var before := files.history;
          var ok := manager.Accept(desired, valid);
          if ok && desired.configured {
            if kept {
              Appended(accepted, before, desired);
            }
            accepted := accepted + [desired];
          }
        case FileLost =>
          files.LoseFloor();
        case Restart =>
          manager := NewChannelManager(files, deviceId, runtimeId);
          if manager == null {
            return;
          }
      }
    }
  }

  /** Acceptance is on record whatever happens to the floor file, or nothing happens to it. */
  ghost predicate Kept(files: Files, steps: seq<Step>)
    reads files
  {
    files.recorder || (!files.lost && FileLost !in steps)
  }
}
