/** Printer restrictions: access lists are restricted and restored under a durable journal. An access list
    stands for its hash; a journalled description reads back as the list it was taken from. */
module PrinterAcls {
  import opened Sequences
  import opened Wrappers
  import opened RestoreProtocol

  type Acl = string

  type Journal = map<string, Record<Acl>>

  const MAX_JOURNAL := 256
  const MAX_PRINTERS := 256

  datatype ChannelState = Off | Conflict | Controlled | Partial | NotPresent | Failed

  datatype ChannelResult = ChannelResult(state: ChannelState, targets: nat, controlled: nat)

  /** Each entry is under its printer's name and holds the restriction of its original. */
  ghost predicate WellFormed(journal: Journal, restricted: Acl -> Acl) {
    forall name :: name in journal ==>
      journal[name].target == name && journal[name].managed == restricted(journal[name].original)
  }

  predicate Loadable(journal: Journal) {
    |journal| <= MAX_JOURNAL
  }

  /** The printer has one of its two recorded lists, if it has an entry. */
  ghost predicate HasRecorded(journal: Journal, settings: map<string, Setting<Acl>>, name: string) {
    name in journal && name in settings ==> settings[name].value in {journal[name].original, journal[name].managed}
  }

  /** Each printer within reach has one of its two recorded lists. */
  ghost predicate Restorable(journal: Journal, but: set<string>, present: set<string>,
                             settings: map<string, Setting<Acl>>) {
    forall name :: name in journal && name !in but && name in present && name in settings ==>
      HasRecorded(journal, settings, name)
  }

  ghost predicate SameRecorded(journal: Journal, settings: map<string, Setting<Acl>>, later: Journal,
                               after: map<string, Setting<Acl>>) {
    forall name :: HasRecorded(journal, settings, name) <==> HasRecorded(later, after, name)
  }

  /** One printer's turn keeps which printers have a recorded list: only its own list changes, to the managed one of
      its entry. */
  lemma RestrictedStep(journal: Journal, settings: map<string, Setting<Acl>>, later: Journal,
                       after: map<string, Setting<Acl>>, name: string, ok: bool)
    requires name in settings && (after == settings
               || (name in later && name in after && after == settings[name := after[name]]))
    requires after != settings ==> name in after && after[name].value == later[name].managed
    requires if name in journal then
               && later == journal && ok == (settings[name].value in {journal[name].original, journal[name].managed})
               && (after != settings ==> ok)
             else
               && ok && (later == journal || (name in later && later - {name} == journal))
               && (later != journal ==> settings[name].value in {later[name].original, later[name].managed})
    ensures ok == HasRecorded(journal, settings, name) && SameRecorded(journal, settings, later, after)
  {
    assert forall n :: n != name ==> (n in later <==> n in journal) && (n in later ==> later[n] == journal[n]) by {
      if later != journal {
        assert forall n :: n != name ==> (n in later <==> n in later - {name});
      }
    }
  }

  lemma SameRecordedAgain(journal: Journal, settings: map<string, Setting<Acl>>, later: Journal,
                          after: map<string, Setting<Acl>>, last: Journal, now: map<string, Setting<Acl>>)
    requires SameRecorded(journal, settings, later, after) && SameRecorded(later, after, last, now)
    ensures SameRecorded(journal, settings, last, now)
  {
  }

  /** A dropped entry's restriction is in place only if its printer was not in the inventory. */
  ghost predicate Dropped(before: Journal, journal: Journal, inventory: set<string>,
                          was: map<string, Setting<Acl>>, settings: map<string, Setting<Acl>>) {
    forall name :: name in before && name !in journal && InPlace(settings, before[name], name) ==>
      name !in inventory && InPlace(was, before[name], name)
  }

  /** Nothing is in place for an entry that was not before. */
  ghost predicate NoneSet(journal: Journal, names: set<string>, was: map<string, Setting<Acl>>,
                          settings: map<string, Setting<Acl>>) {
    forall name :: name in names && name in journal && InPlace(settings, journal[name], name) ==>
      InPlace(was, journal[name], name)
  }

  /** One more entry dropped or kept. */
  lemma DroppedNext(first: Journal, before: Journal, journal: Journal, inventory: set<string>,
                    was: map<string, Setting<Acl>>, settings: map<string, Setting<Acl>>,
                    next: map<string, Setting<Acl>>, name: string, left: set<string>)
    requires name in left && left <= before.Keys && before.Keys <= first.Keys
    requires forall n :: n in before ==> before[n] == first[n]
    requires Dropped(first, before, inventory, was, settings) && NoneSet(first, left, was, settings)
    requires OnlyOutsideBut(name, settings, next) && (forall n :: n in first ==> first[n].target == n)
    requires journal == before || journal == before - {name}
    requires name !in journal && InPlace(next, before[name], name) ==>
               name !in inventory && InPlace(settings, before[name], name)
    ensures Dropped(first, journal, inventory, was, next) && NoneSet(first, left - {name}, was, next)
  {
    forall n | n in first && n != name && InPlace(next, first[n], n) ensures InPlace(settings, first[n], n) {
    }
  }

  /** The list is the recorded managed one, or one that restricting does not change. */
  ghost predicate Manages(journal: Journal, restricted: Acl -> Acl, name: string, acl: Acl) {
    (name in journal && acl == journal[name].managed) || restricted(acl) == acl
  }

  /** Such a list was read from each since. */
  ghost predicate AllManaged(readings: seq<Seen<Acl>>, since: nat, journal: Journal, restricted: Acl -> Acl,
                             names: set<string>) {
    forall name :: name in names ==> SeenManaged(readings, since, journal, restricted, name)
  }

  ghost predicate SeenManaged(readings: seq<Seen<Acl>>, since: nat, journal: Journal, restricted: Acl -> Acl,
                              name: string) {
    exists i :: since <= i < |readings| && readings[i].target == name
      && Manages(journal, restricted, name, readings[i].value)
  }

  lemma SeenAgain(before: seq<Seen<Acl>>, readings: seq<Seen<Acl>>, since: nat, first: Journal, journal: Journal,
                  restricted: Acl -> Acl, done: set<string>, name: string, i: nat)
    requires AllManaged(before, since, first, restricted, done) && before <= readings
    requires forall n :: n in first ==> n in journal && journal[n] == first[n]
    requires since <= i < |readings| && readings[i].target == name
               && Manages(journal, restricted, name, readings[i].value)
    ensures AllManaged(readings, since, journal, restricted, done + {name})
  {
    assert SeenManaged(readings, since, journal, restricted, name);
    forall n | n in done ensures SeenManaged(readings, since, journal, restricted, n) {
      assert SeenManaged(before, since, first, restricted, n);
      var k :| since <= k < |before| && before[k].target == n && Manages(first, restricted, n, before[k].value);
      assert readings[k] == before[k];
    }
  }

  lemma ManagesStill(journal: Journal, later: Journal, restricted: Acl -> Acl)
    requires forall n :: n in journal ==> n in later && later[n] == journal[n]
    ensures forall n, acl: Acl :: Manages(journal, restricted, n, acl) ==> Manages(later, restricted, n, acl)
  {
  }

  lemma StillThere(done: set<string>, name: string, was: map<string, Setting<Acl>>, settings: map<string, Setting<Acl>>)
    requires Unmoved({name}, was, settings) && forall n :: n in done ==> n in was
    ensures forall n :: n in done && n != name ==> n in settings && settings[n] == was[n]
  {
  }

  class WindowsChannels {
    const world: World<Acl>
    const restricted: Acl -> Acl
    var journal: Journal

    /** The service's copy is the durable journal. */
    ghost predicate Valid()
      reads this, world
    {
      world.Safe() && world.keyed && journal == world.records && WellFormed(journal, restricted)
    }

    constructor (world: World<Acl>, restricted: Acl -> Acl)
      requires world.Safe() && world.keyed && WellFormed(world.records, restricted)
      ensures this.world == world && this.restricted == restricted && Valid()
    {
      this.world, this.restricted, journal := world, restricted, world.records;
    }

    /** A first restriction makes the journal entry durable before the first write; a printer that is already
        restricted as the service would is left alone. */
    method RestrictPrinter(name: string) returns (ok: bool)
      requires Valid()
      modifies this, world
      ensures Valid() && KeptBut(name)
      ensures name in old(journal) ==> journal == old(journal)
      ensures journal == old(journal)
              || (name in journal && journal[name].original != journal[name].managed
                && journal - {name} == old(journal))
      ensures old(journal).Keys <= journal.Keys && forall n :: n in old(journal) ==> journal[n] == old(journal)[n]
      ensures ok ==> name in world.settings && IsRestricted(name, world.settings[name].value)
      ensures ok ==> SeenRestricted(|old(world.readings)|, name)
      ensures world.drops == old(world.drops)
      ensures world.Steady() && name in old(world.settings) && name in world.present ==>
                RestrictedExactly(name, old(world.settings)[name].value, ok)
    {
      hide World.Safe;
      if name in journal {
        ok := world.Bring(name, false);
        return;
      }
      var current := world.Read(name);
      if current.None? {
        return false;
      }
      assert world.readings[|old(world.readings)|] == Seen(name, current.value);
      var expected := restricted(current.value);
      if expected == current.value {
        return true;
      }
      ok := RecordAndRestrict(name, Record(name, current.value, expected));
    }

    /** The first restriction of a printer, whose list was just read. */
    method RecordAndRestrict(name: string, entry: Record<Acl>) returns (ok: bool)
      requires Valid() && name !in journal && name in world.settings && world.settings[name].value == entry.original
      requires entry.target == name && entry.managed == restricted(entry.original) != entry.original
      modifies this, world
      ensures Valid() && KeptBut(name)
      ensures journal == old(journal) || (journal == old(journal)[name := entry] && journal - {name} == old(journal))
      ensures ok ==> && name in world.settings && world.settings[name].value == entry.managed && name in journal
                     && |world.readings| > |old(world.readings)| && Last(world.readings) == Seen(name, entry.managed)
      ensures world.drops == old(world.drops)
      ensures world.Steady() && name in world.present ==>
                && ok && journal == old(journal)[name := entry]
                && world.settings == old(world.settings)[name := Setting(entry.managed, Managed(name))]
    {
      hide World.Safe;
      ok := world.AddRecord(name, entry);
      if !ok {
        return;
      }
      journal := journal[name := entry];
      assert journal - {name} == old(journal);
      ok := world.WriteIfUnchanged(name, false);
      if ok {
        var actual := world.Read(name);
        ok := actual == Some(entry.managed);
      }
    }

    /** Other settings change only from outside; what was read, written and listed stays on record. */
    twostate predicate KeptBut(name: string)
      reads this, world
    {
      && world.ElapsedBut(name) && world.inventory == old(world.inventory)
      && old(world.readings) <= world.readings && old(world.log) <= world.log && |world.log| <= |old(world.log)| + 1
    }

    /** The recorded managed list, or a list that needs no record because restricting does not change it. */
    ghost predicate IsRestricted(name: string, acl: Acl)
      reads this
    {
      if name in journal then acl == journal[name].managed else restricted(acl) == acl
    }

    /** A restricted list was read from the printer since. */
    ghost predicate SeenRestricted(since: nat, name: string)
      reads this, world
    {
      exists i :: since <= i < |world.readings| && world.readings[i].target == name
        && IsRestricted(name, world.readings[i].value)
    }

    /** Undisturbed: the first time the list is recorded and restricted unless it already is; later exactly the
        recorded original is restricted again, and any list but the two recorded ones is left as it is. */
    twostate predicate RestrictedExactly(name: string, was: Acl, ok: bool)
      requires name in old(world.settings)
      reads this, world
    {
      if name in old(journal) then
        name in journal && journal[name].target == name && world.BroughtExactly(journal[name], name, false, ok)
      else
        && ok
        && journal == (if restricted(was) == was then old(journal)
                       else old(journal)[name := Record(name, was, restricted(was))])
        && world.settings == (if restricted(was) == was then old(world.settings)
                              else old(world.settings)[name := Setting(restricted(was), Managed(name))])
    }

    /** Success removes the entry, and leaves the original list on a present printer unless another program
        has changed it since; failure keeps the entry, in memory and on disk. The service's restriction stays in
        place without its entry exactly if the printer was not in the inventory and nobody else removed it. */
    method RestorePrinter(name: string, present: bool) returns (ok: bool)
      requires Valid() && name in journal && (present <==> name in world.inventory)
      modifies this, world
      ensures Valid() && KeptBut(name)
      ensures journal == if ok then old(journal) - {name} else old(journal)
      ensures ok && present && name in world.settings ==>
                world.settings[name].value == old(journal[name].original) || world.settings[name].setter == Outside
      ensures ok && InPlace(world.settings, old(journal[name]), name) ==>
                !present && InPlace(old(world.settings), old(journal[name]), name)
      ensures !present ==> world.Elapsed() && world.log == old(world.log)
      ensures world.Steady() && !present ==> ok
      ensures world.Steady() && present && name in old(world.settings) && name in world.present ==>
                old(journal[name]).target == name && world.BroughtExactly(old(journal[name]), name, true, ok)
    {
      hide World.Safe;
      OriginalIsNotManaged(name);
      if present {
        ok := world.Bring(name, true);
        if !ok {
          return;
        }
      }
      ok := world.RemoveRecord(name);
      if ok {
        journal := journal - {name};
      }
    }

    lemma OriginalIsNotManaged(name: string)
      requires Valid() && name in journal
      ensures journal[name].original != journal[name].managed && journal[name].target == name
    {
    }

    /** The local printers; more than 256 are an error. */
    method LocalPrinters() returns (names: Option<seq<string>>)
      requires Valid()
      modifies world`settings, world`present, world`imitated, world`inventory
      ensures Valid() && world.Elapsed()
      ensures names.Some? ==> forall name :: name in names.value <==> name in world.inventory
      ensures names.Some? ==> |names.value| == |world.inventory| <= MAX_PRINTERS
      ensures names.Some? ==> world.inventory == world.present * world.settings.Keys
      ensures world.reliable ==> (names.Some? <==> |world.present * world.settings.Keys| <= MAX_PRINTERS)
    {
      var listed := world.Inventory();
      if listed.None? || |listed.value| > MAX_PRINTERS {
        return None;
      }
      var found: seq<string>, left := [], listed.value;
      while left != {}
        invariant left <= listed.value && |found| + |left| == |listed.value|
        invariant forall name :: name in listed.value <==> name in found || name in left
        decreases |left|
      {
        var name :| name in left;
        found, left := found + [name], left - {name};
      }
      names := Some(found);
    }

    /** Off: every entry is tried, and Off is reported only when none is left. An entry is dropped with the
        service's restriction in place only if its printer was not in the inventory, and exactly then if nothing
        disturbs the service. */
    method RestoreAll() returns (result: ChannelResult)
      requires Valid()
      modifies this, world
      ensures Valid() && journal.Keys <= old(journal).Keys && old(world.log) <= world.log
      ensures forall name :: name in journal ==> journal[name] == old(journal)[name]
      ensures result.state in {Off, Conflict, Failed} && (result.state == Off ==> journal == map[])
      ensures Dropped(old(journal), journal, world.inventory, old(world.settings), world.settings)
      ensures world.alone ==>
                && world.present == old(world.present)
                && Unmoved(old(journal).Keys * world.present, old(world.settings), world.settings)
      ensures world.Steady() && |world.present * old(world.settings).Keys| <= MAX_PRINTERS ==>
                (result.state == Off <==> Restorable(old(journal), {}, world.present, old(world.settings)))
    {
      hide World.Safe, Valid, Turns, Restorable;
      var names := LocalPrinters();
      if names.None? {
        return ChannelResult(Failed, 0, 0);
      }
      result := ChannelResult(Off, 0, 0);
      var left := journal.Keys;
      FirstTurn();
      while left != {}
        invariant Valid() && old(world.log) <= world.log && result.state in {Off, Conflict}
        invariant forall name :: name in names.value <==> name in world.inventory
        invariant Turns(old(journal), old(world.settings), left, result.state == Off)
        invariant world.alone ==> world.present == old(world.present)
        decreases |left|
      {
        var name :| name in left;
        var restored := RestoreNext(
          name, name in names.value, old(journal), old(world.settings), left, result.state == Off);
        left := left - {name};
        if !restored {
          result := result.(state := Conflict);
        }
      }
      LastTurn(result.state == Off);
    }

    /** Where restoring has got to: what was left of the first journal, and what it found. */
    ghost predicate Turns(first: Journal, was: map<string, Setting<Acl>>, left: set<string>, off: bool)
      reads this, world
    {
      && left <= journal.Keys <= first.Keys && (forall name :: name in journal ==> journal[name] == first[name])
      && (forall name :: name in first ==> first[name].target == name)
      && (off ==> journal.Keys == left)
      && Dropped(first, journal, world.inventory, was, world.settings) && NoneSet(first, left, was, world.settings)
      && (world.alone ==>
            && world.inventory == world.present * was.Keys
            && Unmoved((first.Keys - left) * world.present, was, world.settings))
      && (world.Steady() ==> (off <==> Restorable(first, left, world.present, was)))
    }

    twostate lemma FirstTurn()
      requires Valid() && journal == old(journal) && world.Elapsed()
      requires world.inventory == world.present * world.settings.Keys
      ensures Turns(journal, old(world.settings), journal.Keys, true)
    {
      hide World.Safe;
    }

    twostate lemma LastTurn(off: bool)
      requires Turns(old(journal), old(world.settings), {}, off)
                 && (world.alone ==> world.present == old(world.present))
      ensures journal.Keys <= old(journal).Keys && (off ==> journal == map[])
      ensures forall name :: name in journal ==> journal[name] == old(journal)[name]
      ensures Dropped(old(journal), journal, world.inventory, old(world.settings), world.settings)
      ensures world.alone ==> Unmoved(old(journal).Keys * world.present, old(world.settings), world.settings)
      ensures world.Steady() ==> (off <==> Restorable(old(journal), {}, world.present, old(world.settings)))
    {
      assert old(journal).Keys - {} == old(journal).Keys;
    }

    /** One entry's turn. */
    method RestoreNext(name: string, present: bool, ghost first: Journal, ghost was: map<string, Setting<Acl>>,
                       ghost left: set<string>, ghost off: bool) returns (ok: bool)
      requires Valid() && name in left && (present <==> name in world.inventory) && Turns(first, was, left, off)
      modifies this, world
      ensures Valid() && KeptBut(name) && Turns(first, was, left - {name}, off && ok)
    {
      hide World.Safe, Dropped, NoneSet;
      var late: bool := *;
      ok := false;
      if !late || world.reliable {
        ok := RestorePrinter(name, present);
      }
      DroppedNext(first, old(journal), journal, world.inventory, was, old(world.settings), world.settings, name, left);
      if world.alone {
        ghost var more := (first.Keys - (left - {name})) * world.present;
        assert Unmoved(more, old(world.settings), world.settings);
        UnmovedNext((first.Keys - left) * world.present, more, was, old(world.settings), world.settings);
      }
    }

    /** On: Controlled is reported only if every printer of the inventory was seen restricted in this call; and
        then, with no other program about, all of them are. */
    method RestrictAll() returns (result: ChannelResult)
      requires Valid()
      modifies this, world
      ensures Valid() && old(journal).Keys <= journal.Keys && old(world.log) <= world.log
      ensures forall name :: name in old(journal) ==> journal[name] == old(journal)[name]
      ensures result.controlled <= result.targets <= MAX_PRINTERS
      ensures result.state != Failed ==> result.targets == |world.inventory|
      ensures result.state == Controlled ==> result.controlled == result.targets > 0
      ensures result.state == Controlled ==> AllSeen(|old(world.readings)|, world.inventory)
      ensures result.state == NotPresent ==> result.targets == 0
      ensures result.state in {Controlled, Partial, NotPresent, Failed} && world.drops == old(world.drops)
      ensures world.Steady() && |world.present * old(world.settings).Keys| <= MAX_PRINTERS ==>
                (result.state in {Controlled, NotPresent} <==>
                 Restorable(old(journal), {}, world.present, old(world.settings)))
    {
      hide World.Safe, Valid, AllSeen, SoFar, Restorable;
      ghost var since, log, drops := |world.readings|, world.log, world.drops;
      var names := LocalPrinters();
      if names.None? {
        return ChannelResult(Failed, 0, 0);
      }
      NoneYet(since);
      ghost var done;
      result, done := RestrictEach(names.value, since, log, drops, old(journal), old(world.settings));
      if world.Steady() {
        AllRestorable(old(journal), old(world.settings), result.state == Controlled);
      }
      if result.targets == 0 && result.state == Controlled {
        result := result.(state := NotPresent);
      }
    }

    /** Every printer's turn. */
    method RestrictEach(names: seq<string>, ghost since: nat, ghost log: seq<Write<Acl>>, ghost drops: seq<Drop<Acl>>,
                        ghost first: Journal, ghost was: map<string, Setting<Acl>>)
      returns (result: ChannelResult, ghost done: set<string>)
      requires Turned(since, log, drops, {}, true, first, was)
      requires forall name :: name in names <==> name in world.inventory
      modifies this, world
      ensures result.targets == |names| && result.controlled <= |names| && result.state in {Controlled, Partial}
      ensures result.state == Controlled ==> result.controlled == |names|
      ensures world.inventory == old(world.inventory) && (world.alone ==> world.present == old(world.present))
      ensures Turned(since, log, drops, done, result.state == Controlled, first, was)
      ensures result.state == Controlled || world.reliable ==> done == world.inventory
    {
      hide Turned;
      done := {};
      result := ChannelResult(Controlled, |names|, 0);
      for i := 0 to |names|
        invariant Turned(since, log, drops, done, result.state == Controlled, first, was)
        invariant done == set k | 0 <= k < i :: names[k]
        invariant result.targets == |names| && result.controlled <= i
        invariant result.state in {Controlled, Partial} && (result.state == Controlled ==> result.controlled == i)
        invariant world.inventory == old(world.inventory) && (world.alone ==> world.present == old(world.present))
      {
        var late: bool := *;
        if late && !world.reliable {
          CutShort(since, log, drops, done, result.state == Controlled, first, was);
          result := result.(state := Partial);
          break;
        }
        var ok := RestrictNext(names[i], since, log, drops, done, result.state == Controlled, first, was);
        done := done + {names[i]};
        if ok {
          result := result.(controlled := result.controlled + 1);
        } else {
          result := result.(state := Partial);
        }
      }
      if result.state == Controlled || world.reliable {
        assert done == world.inventory;
      }
    }

    /** Where restricting has got to. */
    ghost predicate Turned(since: nat, log: seq<Write<Acl>>, drops: seq<Drop<Acl>>, done: set<string>, all: bool,
                           first: Journal, was: map<string, Setting<Acl>>)
      reads this, world
    {
      && Valid() && since <= |world.readings| && log <= world.log && world.drops == drops
      && first.Keys <= journal.Keys && (forall name :: name in first ==> journal[name] == first[name])
      && (all ==> AllSeen(since, done)) && (world.Steady() ==> SoFar(done, first, was, all))
    }

    lemma CutShort(since: nat, log: seq<Write<Acl>>, drops: seq<Drop<Acl>>, done: set<string>, all: bool,
                   first: Journal,
                   was: map<string, Setting<Acl>>)
      requires Turned(since, log, drops, done, all, first, was) && !world.reliable
      ensures Turned(since, log, drops, done, false, first, was)
    {
    }

    /** What one printer's turn adds to the turns before. */
    method RestrictNext(name: string, ghost since: nat, ghost log: seq<Write<Acl>>, ghost drops: seq<Drop<Acl>>,
                        ghost done: set<string>, ghost all: bool, ghost first: Journal,
                        ghost was: map<string, Setting<Acl>>) returns (ok: bool)
      requires Turned(since, log, drops, done, all, first, was) && name in world.inventory
      modifies this, world
      ensures Turned(since, log, drops, done + {name}, all && ok, first, was)
      ensures world.inventory == old(world.inventory) && (world.alone ==> world.present == old(world.present))
    {
      hide World.Safe, HasRecorded, Manages, OnlyOutside, OnlyOutsideBut;
      ok := RestrictTurn(name);
      if world.Steady() && name in world.inventory {
        SameRecordedAgain(first, was, old(journal), old(world.settings), journal, world.settings);
      }
      if all && ok {
        ghost var i :| |old(world.readings)| <= i < |world.readings| && world.readings[i].target == name
                       && Manages(journal, restricted, name, world.readings[i].value);
        SeenAgain(old(world.readings), world.readings, since, old(journal), journal, restricted, done, name, i);
        assert world.alone ==> forall n :: n in done + {name} ==>
                 n in world.settings && Manages(journal, restricted, n, world.settings[n].value) by {
          ManagesStill(old(journal), journal, restricted);
          if world.alone {
            StillThere(done, name, old(world.settings), world.settings);
          }
        }
      }
    }

    /** One printer, seen with the others'. */
    method RestrictTurn(name: string) returns (ok: bool)
      requires Valid()
      modifies this, world
      ensures Valid() && KeptBut(name) && world.drops == old(world.drops)
      ensures old(journal).Keys <= journal.Keys && forall n :: n in old(journal) ==> journal[n] == old(journal)[n]
      ensures ok ==> SeenManaged(world.readings, |old(world.readings)|, journal, restricted, name)
      ensures ok ==> name in world.settings && Manages(journal, restricted, name, world.settings[name].value)
      ensures world.Steady() && name in old(world.settings) && name in world.present ==>
                && ok == HasRecorded(old(journal), old(world.settings), name)
                && SameRecorded(old(journal), old(world.settings), journal, world.settings)
                && world.settings.Keys == old(world.settings).Keys
    {
      hide World.Safe, HasRecorded, SameRecorded;
      ok := RestrictPrinter(name);
      if world.Steady() && name in old(world.settings) && name in world.present {
        RestrictedStep(old(journal), old(world.settings), journal, world.settings, name, ok);
      }
    }

    /** Undisturbed: which printers have a recorded list has not changed, and these all had one exactly if all is
        well. */
    ghost predicate SoFar(done: set<string>, first: Journal, was: map<string, Setting<Acl>>, all: bool)
      reads this, world
    {
      && world.inventory == world.present * was.Keys && world.settings.Keys == was.Keys
      && SameRecorded(first, was, journal, world.settings)
      && (all <==> forall name :: name in done ==> HasRecorded(first, was, name))
    }

    lemma NoneYet(since: nat)
      requires since <= |world.readings|
      ensures AllSeen(since, {})
      ensures world.inventory == world.present * world.settings.Keys ==> SoFar({}, journal, world.settings, true)
    {
    }

    lemma AllRestorable(first: Journal, was: map<string, Setting<Acl>>, all: bool)
      requires SoFar(world.inventory, first, was, all)
      ensures all <==> Restorable(first, {}, world.present, was)
    {
    }

    /** Each was seen restricted, and with no other program about still is. */
    ghost predicate AllSeen(since: nat, done: set<string>)
      reads this, world
    {
      && AllManaged(world.readings, since, journal, restricted, done)
      && (world.alone ==> forall n :: n in done ==>
        n in world.settings && Manages(journal, restricted, n, world.settings[n].value))
    }
  }

  /** A start: an unreadable journal, or one with more than 256 entries, is refused. */
  method NewChannels(world: World<Acl>, restricted: Acl -> Acl) returns (service: WindowsChannels?)
    requires world.Safe() && world.keyed && WellFormed(world.records, restricted)
    ensures service != null ==>
              && fresh(service) && service.world == world && service.restricted == restricted && service.Valid()
              && Loadable(service.journal)
    ensures !Loadable(world.records) ==> service == null
    ensures world.reliable && Loadable(world.records) ==> service != null
  {
    var fails: bool := *;
    if (fails && !world.reliable) || !Loadable(world.records) {
      return null;
    }
    service := new WindowsChannels(world, restricted);
  }

  // --- what restoring gets wrong, exactly ---

  /** Undisturbed, restoring a printer within reach replaces a list that the service had not set for this entry
      exactly if another program has set precisely the managed list. */
  method ForeignValueReplacedExactly(service: WindowsChannels, name: string) returns (ok: bool, ghost replaced: bool)
    requires service.Valid() && service.world.Steady() && name in service.journal
    requires name in service.world.inventory && name in service.world.present && name in service.world.settings
    modifies service, service.world
    ensures replaced <==> && |service.world.log| > |old(service.world.log)|
                          && Last(service.world.log).before.setter != Managed(name)
    ensures replaced <==> old(service.world.settings)[name] == Setting(old(service.journal[name].managed), Outside)
    ensures replaced ==>
              && ok && name in service.world.settings
              && service.world.settings[name].value == old(service.journal[name].original)
  {
    var world := service.world;
    ok := service.RestorePrinter(name, true);
    replaced := |world.log| > |old(world.log)| && Last(world.log).before.setter != Managed(name);
  }

  /** So a restriction that an administrator has taken off and placed again is taken away. */
  method OutsideRestrictionIsReplaced(name: string, acl: Acl, restricted: Acl -> Acl) returns (world: World<Acl>)
    requires restricted(acl) != acl
    ensures name in world.settings && world.settings[name].value == acl
    ensures |world.log| > 0 && Last(world.log).before == Setting(restricted(acl), Outside)
  {
    hide World.Safe;
    var service := OneRestricted(name, acl, restricted);
    world := service.world;
    world.Edit(map[name := acl], {});
    world.Edit(map[name := restricted(acl)], {});
    var listed := world.Inventory();
    var ok := service.RestorePrinter(name, true);
  }

  /** A machine with one printer, which the service has restricted and nobody else touches. */
  method OneRestricted(name: string, acl: Acl, restricted: Acl -> Acl) returns (service: WindowsChannels)
    requires restricted(acl) != acl
    ensures fresh(service) && fresh(service.world) && service.Valid() && service.world.Steady()
    ensures service.journal == map[name := Record(name, acl, restricted(acl))]
    ensures service.world.settings == map[name := Setting(restricted(acl), Managed(name))]
    ensures service.world.present == {name}
  {
    hide World.Safe;
    var world := new World(map[name := acl], true, true, true);
    service := NewChannels(world, restricted);
    var ok := service.RestrictPrinter(name);
  }

  /** Undisturbed, restoring drops an entry and leaves its restriction in place exactly if the printer is not in
      the inventory and still has the list the service set. */
  method RestrictionLeftExactly(service: WindowsChannels, name: string, present: bool) returns (ok: bool)
    requires service.Valid() && service.world.alone && name in service.journal
    requires present <==> name in service.world.inventory
    modifies service, service.world
    ensures ok && InPlace(service.world.settings, old(service.journal[name]), name) <==>
            ok && !present && old(InPlace(service.world.settings, service.journal[name], name))
    ensures service.world.reliable && !present ==> ok
  {
    ok := service.RestorePrinter(name, present);
  }

  /** So a printer that is out of reach while restrictions are lifted keeps its restriction for good. */
  method AbsentPrinterStaysRestricted(name: string, acl: Acl, restricted: Acl -> Acl)
    returns (world: World<Acl>, off: ChannelResult)
    requires restricted(acl) != acl
    ensures world.Safe() && name in world.present && name in world.settings
    ensures world.settings[name] == Setting(restricted(acl), Managed(name))
    ensures world.records == map[] && off.state == Off
  {
    hide World.Safe;
    var service := OneRestricted(name, acl, restricted);
    world := service.world;
    world.Plug({});
    assert {} * world.settings.Keys == {};
    off := service.RestoreAll();
    world.Plug({name});
    assert {name} * world.settings.Keys == {name};
    off := service.RestoreAll();
  }

  /** Nothing bounds the entries of a saved journal: after one more printer is restricted, the next start takes the
      journal over exactly if it had fewer than 256 entries. */
  method LoadableExactly(service: WindowsChannels, name: string) returns (next: WindowsChannels?)
    requires service.Valid() && service.world.Steady() && name !in service.journal
    requires name in service.world.settings && name in service.world.present
    requires service.restricted(service.world.settings[name].value) != service.world.settings[name].value
    modifies service, service.world
    ensures next != null <==> |old(service.journal)| < MAX_JOURNAL
    ensures service.Valid() && service.journal.Keys == old(service.journal).Keys + {name}
  {
    hide World.Safe;
    var ok := service.RestrictPrinter(name);
    next := NewChannels(service.world, service.restricted);
  }

  method PlugIn(world: World<Acl>, name: string, acl: Acl)
    requires world.Safe()
    modifies world`settings, world`imitated, world`present
    ensures world.Safe() && name in world.settings && world.settings[name].value == acl && name in world.present
  {
    hide World.Safe;
    world.Edit(map[name := acl], {});
    world.Plug({name});
  }

  method PlugAndRestrict(service: WindowsChannels, name: string, acl: Acl) returns (next: WindowsChannels?)
    requires service.Valid() && service.world.Steady() && name !in service.journal && service.restricted(acl) != acl
    modifies service, service.world
    ensures service.Valid() && |service.journal| == |old(service.journal)| + 1
    ensures forall n :: n in service.journal ==> n in old(service.journal) || n == name
    ensures next != null <==> |old(service.journal)| < MAX_JOURNAL
  {
    hide World.Safe;
    PlugIn(service.world, name, acl);
    next := LoadableExactly(service, name);
    assert |service.journal.Keys| == |service.journal|;
  }

  /** So printers plugged in one after another, each restricted, end in a journal that no start takes over. */
  method PrintersOneByOne(names: seq<string>, acl: Acl, restricted: Acl -> Acl) returns (next: WindowsChannels?)
    requires restricted(acl) != acl
    requires forall i, j :: 0 <= i < j < |names| ==> names[i] != names[j]
    ensures next != null <==> |names| <= MAX_JOURNAL
  {
    hide World.Safe, WindowsChannels.Valid;
    var world := new World(map[], true, true, true);
    var service := NewChannels(world, restricted);
    next := service;
    for i := 0 to |names|
      invariant service != null && service.Valid() && service.world == world && world.Steady()
      invariant fresh(service) && fresh(world) && service.restricted == restricted
      invariant |service.journal| == i && forall k :: i <= k < |names| ==> names[k] !in service.journal
      invariant next != null <==> i <= MAX_JOURNAL
    {
      next := PlugAndRestrict(service, names[i], acl);
    }
  }

  // --- whole runs ---

  datatype Step = Reconcile(enabled: bool) | Restart

  /** Over every run, with other programs acting in between: each write replaced a recorded original by the managed
      list, or by the original a managed list that the service had set for this entry, or that another program had
      set since the entry was made; and the service's restriction is in place without its entry only where that very
      restriction was in place when its entry was dropped with the printer out of the inventory. A run ends early
      when a start refuses the journal. */
  method Run(world: World<Acl>, restricted: Acl -> Acl, steps: seq<Step>)
    requires world.Safe() && world.keyed && WellFormed(world.records, restricted)
    modifies world
    ensures world.Safe() && old(world.log) <= world.log
    ensures forall i :: 0 <= i < |world.log| ==> JustifiedByOwner(world.log[i])
    ensures forall name :: name in world.settings && world.settings[name].setter.Managed? ==>
              world.Recorded(name) || Abandoned(world.drops, name, world.settings[name])
  {
    var service := NewChannels(world, restricted);
    if service == null {
      return;
    }
    for i := 0 to |steps|
      invariant service != null && fresh(service) && service.world == world && service.restricted == restricted
      invariant service.Valid() && old(world.log) <= world.log
    {
      match steps[i] {
        case Reconcile(enabled) =>
          var result;
          if enabled {
            result := service.RestrictAll();
          } else {
            result := service.RestoreAll();
          }
        case Restart =>
          service := NewChannels(world, restricted);
          if service == null {
            return;
          }
      }
    }
  }
}
