/** Write-ahead restoration of an operating-system setting: the original value is durable before the
    first write, and only the recorded original or managed value is ever replaced. Every method of the
    world requires and keeps Safe, so Safe holds wherever the process stops. */
module RestoreProtocol {
  import opened Sequences
  import opened Wrappers

  /** Who last set a value: another program, or the service for one of its records. */
  datatype Setter = Outside | Managed(owner: string) | PutBack(owner: string)

  datatype Setting<V> = Setting(value: V, setter: Setter)

  /** The durable record of one restriction. */
  datatype Record<V> = Record(target: string, original: V, managed: V)

  /** One write by the service: what it replaced and what it set, under which record, and whether another
      program had set the managed value since the record was made. */
  datatype Write<V> = Write(owner: string, record: Record<V>, before: Setting<V>, after: V, imitated: bool)

  /** A record dropped: what the last inventory listed, and whether its restriction was still in place. */
  datatype Drop<V> = Drop(owner: string, record: Record<V>, inventory: set<string>, carrying: bool)

  /** The setting is the restriction that was in place when its record was dropped, the target out of the inventory. */
  ghost predicate LeftBy<V>(drop: Drop<V>, target: string, setting: Setting<V>) {
    && drop.carrying && drop.record.target == target && target !in drop.inventory
    && setting == Setting(drop.record.managed, Managed(drop.owner))
  }

  ghost predicate Abandoned<V>(drops: seq<Drop<V>>, target: string, setting: Setting<V>) {
    exists i :: 0 <= i < |drops| && LeftBy(drops[i], target, setting)
  }

  /** A value read. */
  datatype Seen<V> = Seen(target: string, value: V)

  ghost predicate Restricting<V>(w: Write<V>) {
    w.before.value == w.record.original && w.after == w.record.managed
  }

  ghost predicate Restoring<V>(w: Write<V>) {
    w.before.value == w.record.managed && w.after == w.record.original
  }

  /** The service had set the value, or another program had, since the record was made. */
  ghost predicate Justified<V>(w: Write<V>) {
    || Restricting(w)
    || (Restoring(w) && (w.before.setter.Managed? || (w.before.setter == Outside && w.imitated)))
  }

  /** With one record for each target, that is the owner of the record. */
  ghost predicate JustifiedByOwner<V>(w: Write<V>) {
    || Restricting(w)
    || (Restoring(w) && (w.before.setter == Managed(w.owner) || (w.before.setter == Outside && w.imitated)))
  }

  /** Each setting is as it was, or was set by another program; settings may vanish and appear. */
  ghost predicate OnlyOutside<V>(before: map<string, Setting<V>>, after: map<string, Setting<V>>) {
    forall t :: t in after ==> (t in before && after[t] == before[t]) || after[t].setter == Outside
  }

  /** The same, one target aside. */
  ghost predicate OnlyOutsideBut<V>(target: string, before: map<string, Setting<V>>, after: map<string, Setting<V>>) {
    forall t :: t in after && t != target ==> (t in before && after[t] == before[t]) || after[t].setter == Outside
  }

  /** A record's restriction is in place and was set for its owner. */
  ghost predicate InPlace<V>(settings: map<string, Setting<V>>, record: Record<V>, owner: string) {
    record.target in settings && settings[record.target] == Setting(record.managed, Managed(owner))
  }

  /** Another program sets some values and removes some settings. */
  function Edited<V>(settings: map<string, Setting<V>>, edits: map<string, V>, gone: set<string>)
    : map<string, Setting<V>>
  {
    map t | t in settings.Keys + edits.Keys && (t in edits || t !in gone) ::
      if t in edits then Setting(edits[t], Outside) else settings[t]
  }

  /** The owners whose managed value another program sets by the change. */
  ghost function Imitated<V(!new)>(
    before: map<string, Setting<V>>, after: map<string, Setting<V>>, records: map<string, Record<V>>): set<string>
  {
    set o | o in records && Imitates(before, after, records[o])
  }

  ghost predicate Imitates<V>(before: map<string, Setting<V>>, after: map<string, Setting<V>>, record: Record<V>) {
    var t := record.target;
    t in after && after[t] == Setting(record.managed, Outside) && !(t in before && before[t] == after[t])
  }

  /** Nothing changed but for these targets. */
  ghost predicate Unmoved<V>(but: set<string>, was: map<string, V>, settings: map<string, V>) {
    forall t :: t !in but ==> (t in settings <==> t in was) && (t in was ==> settings[t] == was[t])
  }

  lemma UnmovedNext<V>(but: set<string>, more: set<string>, was: map<string, V>, settings: map<string, V>,
                       next: map<string, V>)
    requires Unmoved(but, was, settings) && Unmoved(more, settings, next) && but <= more
    ensures Unmoved(more, was, next)
  {
  }

  function Desired<V>(record: Record<V>, restoring: bool): V {
    if restoring then record.original else record.managed
  }

  function Result<V>(record: Record<V>, owner: string, restoring: bool): Setting<V> {
    Setting(Desired(record, restoring), if restoring then PutBack(owner) else Managed(owner))
  }

  /** The guard of a write asks for the value, not for who set it. */
  predicate MayReplace<V(==)>(record: Record<V>, current: V, restoring: bool) {
    current == Desired(record, !restoring)
  }

  class World<V(==,!new)> {
    /** No other program acts between the service's calls, unless told to by Edit and Plug. */
    const alone: bool
    /** No call fails. */
    const reliable: bool
    /** Each target has at most one record, under its own name. */
    const keyed: bool

    /** Every setting of the machine, within reach or not. */
    var settings: map<string, Setting<V>>
    /** The targets within reach. */
    var present: set<string>
    var records: map<string, Record<V>>
    ghost var inventory: set<string>
    ghost var imitated: set<string>
    ghost var readings: seq<Seen<V>>
    ghost var log: seq<Write<V>>
    ghost var drops: seq<Drop<V>>

    ghost predicate Safe()
      reads this
    {
      && imitated <= records.Keys
      && (forall o, p :: o in records && p in records && records[o].target == records[p].target ==>
            records[o].managed != records[p].original)
      && (forall t :: t in settings && settings[t].setter.Managed? ==> Recorded(t) || Abandoned(drops, t, settings[t]))
      && (forall o :: o in records ==> OwnOrImitated(o))
      && (forall i :: 0 <= i < |log| ==> Justified(log[i]))
      && (forall i :: 0 <= i < |drops| && drops[i].carrying ==> drops[i].record.target !in drops[i].inventory)
      && (keyed ==> Keyed())
    }

    ghost predicate Keyed()
      reads this
    {
      && (forall o :: o in records ==> records[o].target == o)
      && (forall t :: t in settings && settings[t].setter.Managed? ==> settings[t].setter.owner == t)
      && (forall i :: 0 <= i < |log| ==> JustifiedByOwner(log[i]))
    }

    /** A restriction in place that the service set has its durable record. */
    ghost predicate Recorded(t: string)
      reads this
      requires t in settings && settings[t].setter.Managed?
    {
      var o := settings[t].setter.owner;
      o in records && records[o].target == t && records[o].managed == settings[t].value
    }

    /** A managed value in place was set by the service, or by another program since the record was made. */
    ghost predicate OwnOrImitated(o: string)
      reads this
      requires o in records
    {
      var t := records[o].target;
      t in settings && settings[t].value == records[o].managed ==>
        settings[t].setter.Managed? || (settings[t].setter == Outside && o in imitated)
    }

    ghost predicate IsManaged(owner: string)
      reads this
      requires owner in records
    {
      InPlace(settings, records[owner], owner)
    }

    /** Nothing disturbs the service. */
    ghost predicate Steady()
      reads this
    {
      alone && reliable
    }

    /** Only other programs may have acted on settings, and only if the service is not alone. */
    twostate predicate Elapsed()
      reads this
    {
      && OnlyOutside(old(settings), settings)
      && (alone ==> settings == old(settings) && present == old(present))
    }

    twostate predicate ElapsedBut(target: string)
      reads this
    {
      && OnlyOutsideBut(target, old(settings), settings)
      && (alone ==> Unmoved({target}, old(settings), settings) && present == old(present))
      && (alone && target in old(settings) ==> target in settings)
    }

    constructor (settings: map<string, V>, alone: bool, reliable: bool, keyed: bool)
      ensures Safe() && this.alone == alone && this.reliable == reliable && this.keyed == keyed
      ensures this.settings == map t | t in settings :: Setting(settings[t], Outside)
      ensures present == settings.Keys && records == map[] && log == [] && drops == []
    {
      this.alone, this.reliable, this.keyed := alone, reliable, keyed;
      this.settings := map t | t in settings :: Setting(settings[t], Outside);
      present, records, inventory, imitated := settings.Keys, map[], {}, {};
      readings, log, drops := [], [], [];
    }

    /** Another program sets some values and removes some settings. */
    method Edit(edits: map<string, V>, gone: set<string>)
      requires Safe()
      modifies this`settings, this`imitated
      ensures Safe() && settings == Edited(old(settings), edits, gone)
      ensures imitated == old(imitated) + Imitated(old(settings), settings, records)
    {
      ghost var before := settings;
      settings := Edited(settings, edits, gone);
      imitated := imitated + Imitated(before, settings, records);
      assert forall o :: o in records && Imitates(before, settings, records[o]) ==> o in imitated;
    }

    /** Targets come into reach and go out of reach. */
    method Plug(targets: set<string>)
      requires Safe()
      modifies this`present
      ensures Safe() && present == targets
    {
      present := targets;
    }

    /** Other programs run. */
    method Elapse()
      requires Safe()
      modifies this`settings, this`present, this`imitated
      ensures Safe() && Elapsed()
    {
      if alone {
        return;
      }
      var edits: map<string, V>, gone: set<string>, targets: set<string> := *, *, *;
      Edit(edits, gone);
      Plug(targets);
    }

    /** The targets within reach; the call may fail. */
    method Inventory() returns (names: Option<set<string>>)
      requires Safe()
      modifies this`settings, this`present, this`imitated, this`inventory
      ensures Safe() && Elapsed()
      ensures names.Some? ==> names.value == inventory == present * settings.Keys
      ensures reliable ==> names.Some?
    {
      Elapse();
      var fails: bool := *;
      if fails && !reliable {
        return None;
      }
      inventory := present * settings.Keys;
      names := Some(present * settings.Keys);
    }

    /** The value of a target; reading may fail. */
    method Read(target: string) returns (value: Option<V>)
      requires Safe()
      modifies this`settings, this`present, this`imitated, this`readings
      ensures Safe() && Elapsed()
      ensures value.Some? ==> target in settings && settings[target].value == value.value
      ensures readings == if value.Some? then old(readings) + [Seen(target, value.value)] else old(readings)
      ensures reliable ==> (value.Some? <==> target in settings && target in present)
    {
      Elapse();
      var fails: bool := *;
      if (fails && !reliable) || target !in settings || target !in present {
        return None;
      }
      readings := readings + [Seen(target, settings[target].value)];
      value := Some(settings[target].value);
    }

    /** Makes a new record of the value just read durable; a failed save leaves the old records. */
    method AddRecord(owner: string, record: Record<V>) returns (ok: bool)
      requires Safe() && owner !in records && record.managed != record.original
      requires record.target in settings && settings[record.target].value == record.original
      requires forall o :: o in records && records[o].target == record.target ==>
                 records[o].managed != record.original && records[o].original != record.managed
      requires keyed ==> record.target == owner
      modifies this`settings, this`present, this`records, this`imitated
      ensures Safe() && Elapsed()
      ensures records == if ok then old(records)[owner := record] else old(records)
      ensures reliable ==> ok
    {
      Elapse();
      var fails: bool := *;
      ok := reliable || !fails;
      if ok {
        Enter(owner, record);
      }
    }

    /** The save itself; another program may have set the managed value after the original was read. */
    method Enter(owner: string, record: Record<V>)
      requires Safe() && owner !in records && record.managed != record.original
      requires record.target in settings ==>
                 settings[record.target].value == record.original || settings[record.target].setter == Outside
      requires forall o :: o in records && records[o].target == record.target ==>
                 records[o].managed != record.original && records[o].original != record.managed
      requires keyed ==> record.target == owner
      modifies this`records, this`imitated
      ensures Safe() && records == old(records)[owner := record]
    {
      if record.target in settings && settings[record.target] == Setting(record.managed, Outside) {
        imitated := imitated + {owner};
      }
      records := records[owner := record];
    }

    /** Drops a record, the restriction of a target in the inventory being gone. */
    method RemoveRecord(owner: string) returns (ok: bool)
      requires Safe() && owner in records
      requires IsManaged(owner) ==> records[owner].target !in inventory
      modifies this`settings, this`present, this`records, this`imitated, this`drops
      ensures Safe() && Elapsed()
      ensures records == if ok then old(records) - {owner} else old(records)
      ensures if ok then |drops| == |old(drops)| + 1 && drops[..|old(drops)|] == old(drops)
                         && (Last(drops).carrying <==> InPlace(settings, old(records)[owner], owner))
              else drops == old(drops)
      ensures reliable ==> ok
    {
      Elapse();
      var fails: bool := *;
      ok := reliable || !fails;
      if ok {
        Leave(owner);
      }
    }

    method Leave(owner: string)
      requires Safe() && owner in records
      requires IsManaged(owner) ==> records[owner].target !in inventory
      modifies this`records, this`imitated, this`drops
      ensures Safe() && records == old(records) - {owner}
      ensures drops == old(drops) + [Drop(owner, old(records)[owner], inventory, old(IsManaged(owner)))]
    {
      drops := drops + [Drop(owner, records[owner], inventory, IsManaged(owner))];
      AbandonedBefore(Last(drops));
      records, imitated := records - {owner}, imitated - {owner};
    }

    twostate lemma AbandonedBefore(drop: Drop<V>)
      requires drops == old(drops) + [drop]
      ensures forall t, setting :: Abandoned(old(drops), t, setting) ==> Abandoned(drops, t, setting)
      ensures forall t, setting :: LeftBy(drop, t, setting) ==> Abandoned(drops, t, setting)
    {
      assert drops[|old(drops)|] == drop;
      forall t, setting | Abandoned(old(drops), t, setting)
        ensures Abandoned(drops, t, setting)
      {
        var i :| 0 <= i < |old(drops)| && LeftBy(old(drops)[i], t, setting);
        assert drops[i] == old(drops)[i];
      }
    }

    /** The write itself. */
    method Replace(owner: string, restoring: bool)
      requires Safe() && owner in records && records[owner].target in settings
      requires MayReplace(records[owner], settings[records[owner].target].value, restoring)
      modifies this`settings, this`log
      ensures Safe() && settings == old(settings)[records[owner].target := Result(records[owner], owner, restoring)]
      ensures log == old(log) + [old(Attempt(owner, restoring))]
    {
      ghost var attempt := Attempt(owner, restoring);
      log := log + [attempt];
      settings := settings[records[owner].target := Result(records[owner], owner, restoring)];
    }

    ghost function Attempt(owner: string, restoring: bool): Write<V>
      requires owner in records && records[owner].target in settings
      reads this
    {
      Write(owner, records[owner], settings[records[owner].target], Desired(records[owner], restoring),
        owner in imitated)
    }

    /** Reads again, writes if the value is still the expected one, and reads back. The check and the write
        are one step; the write may fail, or take effect and report failure. */
    method WriteIfUnchanged(owner: string, restoring: bool) returns (ok: bool)
      requires Safe() && owner in records
      modifies this`settings, this`present, this`imitated, this`readings, this`log
      ensures Safe() && ElapsedBut(records[owner].target)
      ensures old(readings) <= readings
      ensures ok ==> var target := records[owner].target;
                     && target in settings && settings[target].value == Desired(records[owner], restoring)
                     && |readings| > |old(readings)|
                       && Last(readings) == Seen(target, Desired(records[owner], restoring))
      ensures || (log == old(log) && OnlyOutside(old(settings), settings) && !ok)
              || (&& |log| == |old(log)| + 1 && log[..|old(log)|] == old(log)
                  && Last(log).owner == owner && Last(log).record == records[owner]
                  && Last(log).after == Desired(records[owner], restoring))
      ensures Steady() && records[owner].target in old(settings) && records[owner].target in present ==>
                WrittenExactly(owner, restoring, ok)
    {
      var record := records[owner];
      var current := Read(record.target);
      if current.None? || !MayReplace(record, current.value, restoring) {
        return false;
      }
      var refused: bool, misreported: bool := *, *;
      if refused && !reliable {
        return false;
      }
      Replace(owner, restoring);
      var actual := Read(record.target);
      ok := (reliable || !misreported) && actual == Some(Desired(record, restoring));
    }

    /** Undisturbed, the value is replaced exactly if it is the expected one. */
    twostate predicate WrittenExactly(owner: string, restoring: bool, ok: bool)
      requires owner in records && records[owner].target in old(settings)
      reads this
    {
      var target := records[owner].target;
      && ok == MayReplace(records[owner], old(settings)[target].value, restoring)
      && settings == (if ok then old(settings)[target := Result(records[owner], owner, restoring)] else old(settings))
      && (if ok then |log| == |old(log)| + 1 && Last(log).before == old(settings)[target] else log == old(log))
    }

    /** Brings a recorded setting to the managed or the original value; a value that is neither is left alone. */
    method Bring(owner: string, restoring: bool) returns (ok: bool)
      requires Safe() && owner in records
      modifies this`settings, this`present, this`imitated, this`readings, this`log
      ensures Safe() && ElapsedBut(records[owner].target)
      ensures old(readings) <= readings && old(log) <= log && |log| <= |old(log)| + 1
      ensures ok ==> var target := records[owner].target;
                     && target in settings && settings[target].value == Desired(records[owner], restoring)
                     && |readings| > |old(readings)|
                       && Last(readings) == Seen(target, Desired(records[owner], restoring))
      ensures Steady() && records[owner].target in old(settings) && records[owner].target in present ==>
                BroughtExactly(records[owner], owner, restoring, ok)
    {
      hide Safe;
      var record := records[owner];
      var current := Read(record.target);
      if current.None? {
        return false;
      }
      if current.value == Desired(record, restoring) {
        return true;
      }
      if current.value != Desired(record, !restoring) {
        return false;
      }
      ok := WriteIfUnchanged(owner, restoring);
    }

    /** Undisturbed, the value is replaced exactly if it is the other recorded one, whoever set it. */
    twostate predicate BroughtExactly(record: Record<V>, owner: string, restoring: bool, ok: bool)
      requires record.target in old(settings)
      reads this
    {
      var was := old(settings)[record.target];
      var replaced := was.value == Desired(record, !restoring);
      && ok == (was.value == record.original || was.value == record.managed)
      && settings == (if replaced then old(settings)[record.target := Result(record, owner, restoring)]
                      else old(settings))
      && (if replaced then |log| == |old(log)| + 1 && Last(log).before == was else log == old(log))
    }
  }
}
