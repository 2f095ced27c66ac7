/** The wired EAP profile: installed over a baseline whose 802.1X is off, and put back on removal. A profile
    stands for its normal form, so that matching profiles are one value. */
module WiredLan {
  import opened Sequences
  import opened Wrappers
  import opened EapXmlReader
  import opened EapXmlMatch
  import opened RestoreProtocol

  /** The originals are allowed baselines and the managed profiles are not. */
  ghost predicate WellFormed(records: map<string, Record<Node>>) {
    forall id :: id in records ==> ProfileAllowed(records[id].original) && !ProfileAllowed(records[id].managed)
  }

  /** No binding was ever dropped with its profile in place. */
  ghost predicate NoneAbandoned(drops: seq<Drop<Node>>) {
    forall i :: 0 <= i < |drops| ==> !drops[i].carrying
  }

  /** A profile installed for one binding is never the baseline of another. */
  lemma ManagedIsNoBaseline(records: map<string, Record<Node>>, id: string, other: string)
    requires WellFormed(records) && id in records && other in records
    ensures records[id].managed != records[other].original
  {
  }

  datatype Action = Install | NetworkReadback

  /** What the helper in the user's session answered. */
  datatype Answer = Answer(action: Action, profile: string, configuration: Node, ok: bool)

  class WindowsEap {
    const world: World<Node>
    ghost var answers: seq<Answer>

    ghost predicate Valid()
      reads this, world
    {
      world.Safe() && !world.keyed && WellFormed(world.records) && NoneAbandoned(world.drops)
    }

    constructor (world: World<Node>)
      requires world.Safe() && !world.keyed && WellFormed(world.records) && NoneAbandoned(world.drops)
      ensures this.world == world && Valid()
    {
      this.world, answers := world, [];
    }

    /** One call of the helper. */
    method AskHelper(action: Action, profile: string, configuration: Node) returns (ok: bool)
      modifies this`answers
      ensures answers == old(answers) + [Answer(action, profile, configuration, ok)]
      ensures world.reliable ==> ok
    {
      var fails: bool := *;
      ok := !fails || world.reliable;
      answers := answers + [Answer(action, profile, configuration, ok)];
    }

    /** The binding file of a profile: nothing, a binding of this adapter, or an error. */
    method Binding(profile: string, adapter: string) returns (ok: bool, binding: Option<Record<Node>>)
      requires Valid()
      ensures ok ==> (binding.Some? <==> profile in world.records)
      ensures ok && binding.Some? ==> binding.value == world.records[profile] && binding.value.target == adapter
      ensures world.reliable ==> ok == (profile in world.records ==> world.records[profile].target == adapter)
    {
      var fails: bool := *;
      if fails && !world.reliable {
        return false, None;
      }
      if profile !in world.records {
        return true, None;
      }
      binding := Some(world.records[profile]);
      ok := binding.value.target == adapter;
    }

    /** The binding to install under; the first time, the baseline and the configuration become durable. */
    method EnsureBinding(profile: string, adapter: string, configuration: Node) returns (ok: bool)
      requires Valid() && !ProfileAllowed(configuration)
      modifies world`settings, world`present, world`records, world`imitated, world`readings
      ensures Valid() && world.Elapsed()
      ensures Recorded(old(world.records), profile, adapter, configuration)
      ensures if ok then profile in world.records && world.records[profile].target == adapter
              else world.records == old(world.records)
      ensures world.Steady() && profile !in old(world.records)
              && adapter in world.settings && adapter in world.present ==>
                ok == ProfileAllowed(world.settings[adapter].value)
      ensures ok && world.alone && profile !in old(world.records) ==>
                && adapter in old(world.settings)
                && world.records[profile] == Record(adapter, old(world.settings)[adapter].value, configuration)
    {
      hide World.Safe;
      var binding;
      ok, binding := Binding(profile, adapter);
      if !ok || binding.Some? {
        return;
      }
      var baseline := world.Read(adapter);
      if baseline.None? || !ProfileAllowed(baseline.value) {
        return false;
      }
      ok := world.AddRecord(profile, Record(adapter, baseline.value, configuration));
      assert ok ==> world.records - {profile} == old(world.records);
    }

    /** Nothing is recorded, or only a first binding of this profile. */
    ghost predicate Recorded(before: map<string, Record<Node>>, profile: string, adapter: string, configuration: Node)
      reads world
    {
      || world.records == before
      || (&& profile !in before && profile in world.records && world.records - {profile} == before
          && world.records[profile].target == adapter && world.records[profile].managed == configuration)
    }

    /** Installs the rendered configuration, whose 802.1X is on. The binding with the baseline is durable before
        the first write; an existing 802.1X policy is never recorded as a baseline or replaced. */
    method Stage(profile: string, adapter: string, configuration: Node) returns (ok: bool)
      requires Valid() && !ProfileAllowed(configuration)
      modifies world, this`answers
      ensures old(answers) <= answers
      ensures ok ==> answers == old(answers) + [Answer(Install, profile, configuration, true)]
                                + [Answer(NetworkReadback, profile, configuration, true)]
      ensures Valid() && old(world.log) <= world.log && |world.log| <= |old(world.log)| + 1
      ensures Recorded(old(world.records), profile, adapter, configuration)
      ensures ok ==> && profile in world.records && world.records[profile].managed == configuration
                     && adapter in world.settings && world.settings[adapter].value == configuration
      ensures world.ElapsedBut(adapter) && world.drops == old(world.drops)
      ensures world.Steady() && profile !in old(world.records)
              && adapter in old(world.settings) && adapter in world.present ==>
                InstalledExactly(profile, adapter, configuration, ok)
    {
      hide World.Safe, WellFormed, NoneAbandoned;
      var unusable: bool := *;
      if unusable && !world.reliable {
        return false;
      }
      ok := EnsureBinding(profile, adapter, configuration);
      if !ok {
        return;
      }
      var binding := world.records[profile];
      if binding.managed != configuration {
        return false;
      }
      var installed := AskHelper(Install, profile, configuration);
      if !installed {
        return false;
      }
      ok := BringAndReadBack(profile, adapter, configuration);
    }

    /** Installs the managed profile of an existing binding and reads it back. */
    method BringAndReadBack(profile: string, adapter: string, configuration: Node) returns (ok: bool)
      requires Valid() && profile in world.records
      requires world.records[profile].target == adapter && world.records[profile].managed == configuration
      modifies this`answers, world`settings, world`present, world`imitated, world`readings, world`log
      ensures Valid() && world.ElapsedBut(adapter) && old(world.log) <= world.log && |world.log| <= |old(world.log)| + 1
      ensures ok ==> answers == old(answers) + [Answer(NetworkReadback, profile, configuration, true)]
      ensures old(answers) <= answers
      ensures ok ==> adapter in world.settings && world.settings[adapter].value == configuration
      ensures world.Steady() && adapter in old(world.settings) && adapter in world.present ==>
                world.BroughtExactly(world.records[profile], profile, false, ok)
    {
      hide World.Safe, WellFormed, NoneAbandoned, ProfileAllowed;
      ok := world.Bring(profile, false);
      if ok {
        ok := Readback(profile, adapter, configuration);
      }
    }

    /** The binding, the configuration and the adapter agree. */
    method Readback(profile: string, adapter: string, configuration: Node) returns (ok: bool)
      requires Valid()
      modifies this`answers, world`settings, world`present, world`imitated, world`readings
      ensures Valid() && world.Elapsed()
      ensures ok ==> answers == old(answers) + [Answer(NetworkReadback, profile, configuration, true)]
      ensures old(answers) <= answers
      ensures ok ==> && profile in world.records && world.records[profile].managed == configuration
                     && adapter in world.settings && world.settings[adapter].value == configuration
      ensures world.Steady() && profile in world.records && world.records[profile].target == adapter
              && world.records[profile].managed == configuration
              && adapter in world.settings && adapter in world.present ==>
                ok == (world.settings[adapter].value == configuration)
    {
      var unusable: bool := *;
      if unusable && !world.reliable {
        return false;
      }
      var binding;
      ok, binding := Binding(profile, adapter);
      if !ok || binding.None? || binding.value.managed != configuration {
        return false;
      }
      var actual := world.Read(adapter);
      if actual != Some(binding.value.managed) {
        return false;
      }
      ok := AskHelper(NetworkReadback, profile, configuration);
    }

    /** Undisturbed, a first installation succeeds exactly over an allowed baseline, and otherwise changes nothing. */
    twostate predicate InstalledExactly(profile: string, adapter: string, configuration: Node, ok: bool)
      requires adapter in old(world.settings)
      reads world
    {
      var was := old(world.settings)[adapter].value;
      && ok == ProfileAllowed(was)
      && (if ok then
            && world.records == old(world.records)[profile := Record(adapter, was, configuration)]
            && world.settings == old(world.settings)[adapter := Setting(configuration, Managed(profile))]
          else
            world.records == old(world.records) && world.settings == old(world.settings) && world.log == old(world.log))
    }

    /** Success removes the binding, and leaves the baseline on the adapter unless another program has changed
        it since; failure keeps the binding. A changed profile is preserved. */
    method Remove(profile: string, adapter: string) returns (ok: bool)
      requires Valid()
      modifies world
      ensures Valid() && old(world.log) <= world.log && |world.log| <= |old(world.log)| + 1
      ensures ok ==> world.records == old(world.records) - {profile}
      ensures !ok ==> world.records == old(world.records)
      ensures ok && profile in old(world.records) && adapter in world.settings ==>
                || world.settings[adapter].value == old(world.records[profile].original)
                || world.settings[adapter].setter == Outside
      ensures ok && profile !in old(world.records) ==>
                world.settings == old(world.settings) && world.log == old(world.log)
      ensures world.ElapsedBut(adapter)
      ensures world.Steady() && profile in old(world.records) && old(world.records)[profile].target == adapter
              && adapter in old(world.settings) && adapter in world.present ==>
                world.BroughtExactly(old(world.records)[profile], profile, true, ok)
    {
      hide World.Safe;
      var binding;
      ok, binding := Binding(profile, adapter);
      if !ok || binding.None? {
        return;
      }
      var unusable: bool := *;
      if unusable && !world.reliable {
        return false;
      }
      ok := world.Bring(profile, true);
      if !ok {
        return;
      }
      ok := world.RemoveRecord(profile);
    }
  }

  /** An existing wired policy, one that says anything but that 802.1X is off, is neither recorded nor replaced. */
  method ExistingPolicyIsKept(profile: string, adapter: string, policy: Node, m: Node, s: Node, e: Node,
                              configuration: Node)
    returns (world: World<Node>, ok: bool)
    requires UniqueNames(policy) && !ProfileAllowed(configuration)
    requires Field(m, policy, "MSM") && Field(s, m, "security") && Field(e, s, "OneXEnabled")
    requires e.text !in {"false", "0"}
    ensures !ok && world.records == map[] && world.log == []
    ensures world.settings == map[adapter := Setting(policy, Outside)]
  {
    hide World.Safe;
    OtherTextForbids(policy, m, s, e);
    world := new World(map[adapter := policy], true, true, false);
    var system := new WindowsEap(world);
    ok := system.Stage(profile, adapter, configuration);
  }

  // --- what removing gets wrong, exactly ---

  /** Undisturbed, removing a profile from an adapter within reach replaces a profile that the service had not set
      exactly if another program has set precisely the managed one. */
  method ForeignProfileReplacedExactly(system: WindowsEap, profile: string, adapter: string)
    returns (ok: bool, ghost replaced: bool)
    requires system.Valid() && system.world.Steady() && profile in system.world.records
    requires system.world.records[profile].target == adapter
    requires adapter in system.world.present && adapter in system.world.settings
    modifies system.world
    ensures replaced <==> && |system.world.log| > |old(system.world.log)|
                          && !Last(system.world.log).before.setter.Managed?
    ensures replaced <==>
            old(system.world.settings)[adapter] == Setting(old(system.world.records[profile].managed), Outside)
    ensures replaced ==> ok
  {
    ok := system.Remove(profile, adapter);
    replaced := |system.world.log| > |old(system.world.log)| && !Last(system.world.log).before.setter.Managed?;
  }

  /** A machine with one adapter, whose profile the service has installed. */
  method OneStaged(profile: string, adapter: string, baseline: Node, configuration: Node) returns (system: WindowsEap)
    requires ProfileAllowed(baseline) && !ProfileAllowed(configuration)
    ensures fresh(system) && fresh(system.world) && system.Valid() && system.world.Steady()
    ensures system.world.records == map[profile := Record(adapter, baseline, configuration)]
    ensures system.world.settings == map[adapter := Setting(configuration, Managed(profile))]
    ensures system.world.present == {adapter}
  {
    hide World.Safe;
    var world := new World(map[adapter := baseline], true, true, false);
    system := new WindowsEap(world);
    var ok := system.Stage(profile, adapter, configuration);
  }

  /** So a wired policy that an administrator has taken off and placed again is taken away. */
  method OutsideProfileIsReplaced(profile: string, adapter: string, baseline: Node, configuration: Node)
    returns (world: World<Node>)
    requires ProfileAllowed(baseline) && !ProfileAllowed(configuration)
    ensures adapter in world.settings && world.settings[adapter].value == baseline
    ensures |world.log| > 0 && Last(world.log).before == Setting(configuration, Outside)
  {
    hide World.Safe;
    var system := OneStaged(profile, adapter, baseline, configuration);
    world := system.world;
    world.Edit(map[adapter := baseline], {});
    world.Edit(map[adapter := configuration], {});
    var ok := system.Remove(profile, adapter);
  }

  // --- whole runs ---

  datatype Step =
    | DoStage(profile: string, adapter: string, configuration: Node)
    | DoRemove(profile: string, adapter: string)

  /** Over every run, with other programs acting in between and starts anywhere: each write replaced a recorded
      baseline by the managed profile, or by the baseline a managed profile that the service had set, or that another
      program had set since the binding was made; and no managed profile of the service is in place unrecorded. */
  method Run(world: World<Node>, steps: seq<Step>)
    requires world.Safe() && !world.keyed && WellFormed(world.records) && NoneAbandoned(world.drops)
    requires forall i :: 0 <= i < |steps| && steps[i].DoStage? ==> !ProfileAllowed(steps[i].configuration)
    modifies world
    ensures world.Safe() && WellFormed(world.records) && old(world.log) <= world.log
    ensures forall i :: 0 <= i < |world.log| ==> Justified(world.log[i])
    ensures forall t :: t in world.settings && world.settings[t].setter.Managed? ==> world.Recorded(t)
  {
    var system := new WindowsEap(world);
    for i := 0 to |steps|
      invariant system.world == world && system.Valid() && old(world.log) <= world.log
    {
      match steps[i] {
        case DoStage(profile, adapter, configuration) =>
          var ok := system.Stage(profile, adapter, configuration);
        case DoRemove(profile, adapter) =>
          var ok := system.Remove(profile, adapter);
      }
    }
  }
}
