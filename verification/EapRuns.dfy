/** Whole runs of the EAP manager, restarts included. */
module EapRuns {
  import opened Wrappers
  import opened Protocol
  import opened EapState
  import opened EapWorld
  import opened EapManager

  /** A step with the random ID it may draw. A crash inside a step leaves a safe world, where a run starts. */
  datatype Step =
    | DoObserve(configuration: Option<(seq<Profile>, int)>, until: Time, at: Time)
    | DoPrepare(profileId: string, adapterId: string, drawn: string)
    | DoCheck(drawn: string)
    | DoRemove(profileId: string)
    | Restart

  function Draw(step: Step): set<string> {
    if step.DoPrepare? || step.DoCheck? then {step.drawn} else {}
  }

  /** Random IDs are well formed and never drawn twice. */
  ghost predicate FreshDraws(steps: seq<Step>, issued: set<string>)
    decreases |steps|
  {
    steps == [] ||
    (&& (forall id :: id in Draw(steps[0]) ==> ValidIdentifier(id) && id !in issued)
     && FreshDraws(steps[1..], issued + Draw(steps[0])))
  }

  lemma {:induction false} FewerIssued(steps: seq<Step>, more: set<string>, fewer: set<string>)
    requires FreshDraws(steps, more) && fewer <= more
    ensures FreshDraws(steps, fewer)
    decreases |steps|
  {
    if steps != [] {
      FewerIssued(steps[1..], more + Draw(steps[0]), fewer + Draw(steps[0]));
    }
  }

  /** Everything ever created, and every export ever on file, is held, queued or cleaned; and nothing destroyed is
      in use. */
  ghost predicate Accounted(s: State, l: Ledger, exports: set<Artifact>) {
    && (forall id :: id in l.requested ==> id in LiveIds(s) || id in JobIds(s.cleanup) || id in l.cleanedIds)
    && (forall ca :: ca in l.staged ==> ca in LiveCas(s) || ca in JobCas(s.cleanup) || ca in l.cleanedCas)
    && (forall a :: a in exports ==> a in HeldExports(s) || a in l.cleanedExports)
    && (forall id :: id in l.destroyed ==> id !in UsableIds(s))
  }

  lemma SafeIsAccounted(world: World)
    requires world.Safe()
    ensures Accounted(world.Disk(), world.ledger, world.exports)
  {
  }

  /** Over every run, from any safe world and whatever fails on the way: every key requested and every CA staged
      is held by an identity or a selection, queued, or was cleaned, and so is every exported file the state file ever
      referred to; nothing destroyed is in use; and the committed restriction epoch never decreases. A run ends early
      when a start refuses the committed state. */
  method Run(world: World, steps: seq<Step>) returns (done: bool)
    requires world.Safe() && FreshDraws(steps, world.ledger.issued)
    modifies world, world.clock
    ensures world.Safe() && Accounted(world.Disk(), world.ledger, world.exports)
    ensures world.Disk().epoch >= old(world.Disk().epoch)
    ensures world.outside.Bounded? ==> done
    ensures !done ==> exists s :: world.disk == Some(s) && !NativeValuesWellFormed(s)
  {
    SafeIsAccounted(world);
    if world.disk.Some? && !RestartAccepts(world.disk.value) {
      RestartExactly(world.disk.value, world.ledger);
      return false;
    }
    var manager := new AdmissionManager(world);
    for i := 0 to |steps|
      invariant fresh(manager) && manager.world == world && manager.Valid()
      invariant FreshDraws(steps[i..], world.ledger.issued)
      invariant world.Disk().epoch >= old(world.Disk().epoch)
    {
      assert steps[i..][0] == steps[i] && steps[i..][1..] == steps[i + 1..];
      ghost var issued := world.ledger.issued;
      if steps[i].Restart? {
        if world.disk.Some? && !RestartAccepts(world.disk.value) {
          RestartExactly(world.disk.value, world.ledger);
          SafeIsAccounted(world);
          return false;
        }
        manager := new AdmissionManager(world);
      } else {
        TakeStep(manager, steps[i]);
      }
      FewerIssued(steps[i + 1..], issued + Draw(steps[i]), world.ledger.issued);
    }
    SafeIsAccounted(world);
    done := true;
  }

  /** A native system that answers with a certificate request of more than 4096 characters gets it committed, and
      the state is refused at the next start. */
  method OverlongRequestLocksOut(profile: Profile, adapter: Adapter, csr: string, drawn: string) returns (world: World)
    requires ValidIdentifier(profile.id) && adapter.enabled && adapter.medium == profile.medium
    requires |csr| > 4096 && ValidIdentifier(drawn)
    ensures world.Safe() && world.disk.Some? && !RestartAccepts(world.disk.value)
  {
    world := new World(Scripted([adapter], csr, 0));
    var manager := new AdmissionManager(world);
    assert manager.state == INITIAL;
    assert manager.Observable(Some(([profile], 0)), 1, 0);
    var ok := manager.Observe(Some(([profile], 0)), 1, 0);
    assert manager.CurrentProfile(profile.id, 0) == Some(profile);
    assert FindAdapter([adapter], adapter.id, profile.medium) == Some(0);
    assert manager.Selects(profile.id, adapter.id) && manager.Unidentified();
    ok := manager.Prepare(profile.id, adapter.id, drawn);
  }

  /** One public call. */
  method TakeStep(manager: AdmissionManager, step: Step)
    requires manager.Valid() && !step.Restart?
    requires forall id :: id in Draw(step) ==> ValidIdentifier(id) && id !in manager.world.ledger.issued
    modifies manager, manager.world, manager.world.clock
    ensures manager.Valid()
    ensures manager.world.Disk().epoch >= old(manager.world.Disk().epoch)
    ensures manager.world.ledger.issued <= old(manager.world.ledger.issued) + Draw(step)
  {
    MirrorsUsable(manager.state, manager.saved, manager.world.ledger);
    var ok;
    match step {
      case DoObserve(configuration, until, at) => ok := manager.Observe(configuration, until, at);
      case DoPrepare(profileId, adapterId, drawn) => ok := manager.Prepare(profileId, adapterId, drawn);
      case DoCheck(drawn) => ok := manager.Check(drawn);
      case DoRemove(profileId) => ok := manager.RemoveProfile(profileId);
    }
    MirrorsUsable(manager.state, manager.saved, manager.world.ledger);
  }
}
