/** The EAP identity manager and its cleanup queue, over an adversarial world. */
module EapManager {
  import opened Sequences
  import opened Wrappers
  import opened Protocol
  import opened EapState
  import opened EapWorld

  const HOUR := 3600

  /** Memory is the committed state, or that state with its stale pending identity already dropped. */
  ghost predicate Mirrors(memory: State, disk: State) {
    memory == disk || (IsStale(disk.pending) && memory == DropStale(disk))
  }

  lemma MirrorsUsable(memory: State, disk: State, l: Ledger)
    requires Mirrors(memory, disk) && Sound(disk, l) && DrawnIdsValid(l)
    ensures UsableIds(memory) == UsableIds(disk) && UsableCas(memory) == UsableCas(disk)
    ensures memory.selections == disk.selections && memory.epoch == disk.epoch && memory.active == disk.active
    ensures memory.pending.Some? ==> memory == disk
    ensures UsableTarget(memory) == UsableTarget(disk)
    ensures Sound(memory, l)
  {
    if memory != disk {
      DropStaleSound(disk, l);
    }
  }

  /** At most 64 profiles with distinct IDs, all of one subject. */
  predicate UsableProfiles(profiles: seq<Profile>) {
    && |profiles| <= 64
    && (forall k :: 0 <= k < |profiles| ==>
      ValidIdentifier(profiles[k].id) && profiles[k].subject == profiles[0].subject)
    && (forall j, k :: 0 <= j < k < |profiles| ==> profiles[j].id != profiles[k].id)
  }

  /** The selection's profile is authorized at that time, and unchanged. */
  predicate IsUpToDate(profiles: seq<Profile>, validUntil: Option<Time>, x: Selection, now: Time) {
    && validUntil.Some? && validUntil.value > now
    && var p := FindProfile(profiles, x.profile.id);
    && p.Some? && ProfileHash(p.value) == ProfileHash(x.profile)
  }

  /** At one of the readings since, the selection was up to date. */
  ghost predicate WasUpToDate(readings: seq<Time>, since: nat, profiles: seq<Profile>, validUntil: Option<Time>,
                              x: Selection) {
    exists i :: since <= i < |readings| && IsUpToDate(profiles, validUntil, x, readings[i])
  }

  ghost predicate AllWereUpToDate(readings: seq<Time>, since: nat, profiles: seq<Profile>, validUntil: Option<Time>,
                                  xs: seq<Selection>) {
    forall x :: x in xs ==> WasUpToDate(readings, since, profiles, validUntil, x)
  }

  /** The active certificate lives for more than an hour, and either was activated after the last configuration, or is
      the one that each selected profile, authorized, names. */
  ghost predicate Serves(s: State, profiles: seq<Profile>, validUntil: Option<Time>, observedAt: Time, now: Time) {
    && HasCertificate(s.active)
    && var active := s.active.value;
    && active.certificate.value.expiresAt > now + 3600
    && (active.activatedAt > observedAt
        || forall x :: x in s.selections ==>
             && validUntil.Some? && validUntil.value > now
             && exists p :: && p in profiles && p.id == x.profile.id
                            && p.clientFingerprint == active.certificate.value.fingerprint)
  }

  lemma ServesStill(s: State, t: State, profiles: seq<Profile>, validUntil: Option<Time>, observedAt: Time, now: Time)
    requires Serves(s, profiles, validUntil, observedAt, now)
    requires t.active == s.active && SameProfiles(t.selections, s.selections)
    ensures Serves(t, profiles, validUntil, observedAt, now)
  {
    forall x | x in t.selections && s.active.value.activatedAt <= observedAt
      ensures validUntil.Some? && validUntil.value > now
      ensures exists p :: && p in profiles && p.id == x.profile.id
                          && p.clientFingerprint == s.active.value.certificate.value.fingerprint
    {
      var k :| 0 <= k < |t.selections| && t.selections[k] == x;
      assert s.selections[k] in s.selections;
    }
  }

  /** At one of the readings since, the certificate had not expired. */
  ghost predicate WasLive(readings: seq<Time>, since: nat, certificate: Certificate) {
    exists i :: since <= i < |readings| && certificate.expiresAt > readings[i]
  }

  lemma LaterUpToDate(readings: seq<Time>, later: seq<Time>, since: nat, profiles: seq<Profile>,
                      validUntil: Option<Time>,
                      x: Selection)
    requires WasUpToDate(later, |readings|, profiles, validUntil, x) && since <= |readings|
    ensures WasUpToDate(later, since, profiles, validUntil, x)
  {
  }

  lemma NoneToCheck(readings: seq<Time>, since: nat, profiles: seq<Profile>, validUntil: Option<Time>,
                    xs: seq<Selection>)
    ensures AllWereUpToDate(readings, since, profiles, validUntil, xs[..0])
  {
  }

  /** One more selection checked; the others keep their profiles. */
  lemma OneMoreUpToDate(readings: seq<Time>, later: seq<Time>, since: nat, profiles: seq<Profile>,
                        validUntil: Option<Time>,
                        xs: seq<Selection>, ys: seq<Selection>, n: nat)
    requires readings <= later && n < |xs| == |ys| && ys == xs[n := ys[n]]
    requires AllWereUpToDate(readings, since, profiles, validUntil, xs[..n])
    requires WasUpToDate(later, since, profiles, validUntil, ys[n])
    ensures AllWereUpToDate(later, since, profiles, validUntil, ys[..n + 1])
  {
    hide IsUpToDate;
    assert ys[..n + 1] == xs[..n] + [ys[n]];
    forall x | x in xs[..n]
      ensures WasUpToDate(later, since, profiles, validUntil, x)
    {
      assert WasUpToDate(readings, since, profiles, validUntil, x);
      var i :| since <= i < |readings| && IsUpToDate(profiles, validUntil, x, readings[i]);
      assert later[i] == readings[i];
    }
  }

  /** At one of the readings since, the selection was not up to date. */
  ghost predicate WasOutdated(readings: seq<Time>, since: nat, profiles: seq<Profile>, validUntil: Option<Time>,
                              x: Selection) {
    exists i :: since <= i < |readings| && !IsUpToDate(profiles, validUntil, x, readings[i])
  }

  /** These were there before, and what is gone was outdated. */
  ghost predicate OnlyOutdatedGone(readings: seq<Time>, since: nat, profiles: seq<Profile>, validUntil: Option<Time>,
                                   xs: seq<Selection>, before: seq<Selection>) {
    && (forall x :: x in xs ==> x in before)
    && (forall x :: x in before && x !in xs ==> WasOutdated(readings, since, profiles, validUntil, x))
  }

  lemma NothingGone(readings: seq<Time>, profiles: seq<Profile>, validUntil: Option<Time>, xs: seq<Selection>)
    ensures OnlyOutdatedGone(readings, |readings|, profiles, validUntil, xs, xs)
    ensures AllWereUpToDate(readings, |readings|, profiles, validUntil, xs[|xs|..])
  {
  }

  /** One more reading, at which the selection was up to date, or was not and is gone. */
  lemma OneMoreReading(readings: seq<Time>, now: Time, since: nat, profiles: seq<Profile>, validUntil: Option<Time>,
                       xs: seq<Selection>, i: nat, before: seq<Selection>)
    requires i < |xs| && since <= |readings| && OnlyOutdatedGone(readings, since, profiles, validUntil, xs, before)
    requires AllWereUpToDate(readings, since, profiles, validUntil, xs[i + 1..])
    ensures if IsUpToDate(profiles, validUntil, xs[i], now) then
              && AllWereUpToDate(readings + [now], since, profiles, validUntil, xs[i..])
              && OnlyOutdatedGone(readings + [now], since, profiles, validUntil, xs, before)
            else
              && AllWereUpToDate(readings + [now], since, profiles, validUntil, Remove(xs, i)[i..])
              && OnlyOutdatedGone(readings + [now], since, profiles, validUntil, Remove(xs, i), before)
  {
    hide IsUpToDate;
    var later, fewer := readings + [now], Remove(xs, i);
    assert xs[i..] == [xs[i]] + xs[i + 1..] && fewer[i..] == xs[i + 1..];
    assert later[|readings|] == now;
    forall x | x in xs[i + 1..]
      ensures WasUpToDate(later, since, profiles, validUntil, x)
    {
      assert WasUpToDate(readings, since, profiles, validUntil, x);
      var k :| since <= k < |readings| && IsUpToDate(profiles, validUntil, x, readings[k]);
      assert later[k] == readings[k];
    }
    forall x | x in before && x !in xs
      ensures WasOutdated(later, since, profiles, validUntil, x)
    {
      assert WasOutdated(readings, since, profiles, validUntil, x);
      var k :| since <= k < |readings| && !IsUpToDate(profiles, validUntil, x, readings[k]);
      assert later[k] == readings[k];
    }
    forall x | x in xs && x != xs[i]
      ensures x in fewer
    {
      var k :| 0 <= k < |xs| && xs[k] == x;
      assert fewer[if k < i then k else k - 1] == x;
    }
  }

  /** The identity that is being installed. */
  function Target(s: State): Option<Identity> {
    if s.pending.Some? then s.pending else s.active
  }

  predicate HasCertificate(identity: Option<Identity>) {
    identity.Some? && identity.value.certificate.Some?
  }

  /** The identity whose profiles may be staged: certified and not stale. */
  predicate Ready(s: State) {
    HasCertificate(Target(s)) && !IsStale(s.pending)
  }

  lemma MergeAt(queue: seq<Job>, job: Job, i: nat)
    requires i < |queue| && queue[i].requestId == job.requestId
    requires forall k :: 0 <= k < i ==> queue[k].requestId != job.requestId
    ensures Merge(queue, job) == queue[i := Combine(queue[i], job)]
    decreases |queue|
  {
    if i > 0 {
      MergeAt(queue[1..], job, i - 1);
      assert queue[i := Combine(queue[i], job)] == [queue[0]] + queue[1..][i - 1 := Combine(queue[i], job)];
    }
  }

  lemma MergeNew(queue: seq<Job>, job: Job)
    requires forall k :: 0 <= k < |queue| ==> queue[k].requestId != job.requestId
    ensures Merge(queue, job) == queue + [job]
    decreases |queue|
  {
  }

  class AdmissionManager {
    const world: World
    var state: State
    var saved: State
    var profiles: seq<Profile>
    var validUntil: Option<Time>
    var observedAt: Time
    var diagnostic: string

    /** A save may happen: memory is sound and the saved copy is the file's content. */
    ghost predicate Consistent()
      reads this, world
    {
      && world.Safe()
      && saved == world.Disk()
      && Sound(state, world.ledger) && state.epoch >= saved.epoch && world.WithinBounds(state)
      && ExportsKept(saved, state, world.ledger)
      && Vouched(world.checks, state.active) && Vouched(world.checks, state.pending)
      && forall p :: p in profiles ==> ValidIdentifier(p.id)
    }

    /** The invariant between public calls. */
    ghost predicate Valid()
      reads this, world
    {
      Consistent() && Mirrors(state, saved)
    }

    /** Starts from the state file, or from nothing; a file the checks refuse stops the start. */
    constructor (world: World)
      requires world.Safe()
      requires world.disk.Some? ==> RestartAccepts(world.disk.value)
      ensures Valid() && this.world == world
      ensures state == saved == world.Disk()
      ensures profiles == [] && validUntil == None && observedAt == 0
    {
      this.world := world;
      state := if world.disk.Some? then world.disk.value else INITIAL;
      saved := if world.disk.Some? then world.disk.value else INITIAL;
      profiles, validUntil, observedAt, diagnostic := [], None, 0, "";
    }

    /** Commits memory, or puts the last committed state back and withdraws authorization. */
    method Save() returns (ok: bool)
      requires Consistent()
      modifies this`state, this`saved, this`validUntil, this`diagnostic, world`disk, world`exports
      ensures Valid() && state == saved
      ensures ok ==> state == old(state) && validUntil == old(validUntil) && diagnostic == old(diagnostic)
      ensures !ok ==> state == old(saved) && validUntil == None && diagnostic == "state_persistence_failed"
      ensures world.outside.Scripted? && |old(state).cleanup| <= 16 ==> ok
    {
      hide Sound, NativeValuesWellFormed, DrawnIdsValid, JobExports, SelectedExports;
      ok := false;
      if |state.cleanup| <= 16 {
        ok := world.WriteFile(state);
      }
      if ok {
        saved := state;
      } else {
        state := saved;
        validUntil := None;
        diagnostic := "state_persistence_failed";
      }
    }

    // --- the queue ---

    method QueueCleanup(job: Job)
      modifies this`state
      ensures state == old(state).(cleanup := Enqueue(old(state).cleanup, job))
    {
      var full := WithIssuer(job);
      if NothingToDo(full) {
        return;
      }
      var queue := state.cleanup;
      for index := 0 to |queue|
        invariant state == old(state)
        invariant forall k :: 0 <= k < index ==> queue[k].requestId != full.requestId
      {
        if queue[index].requestId == full.requestId {
          MergeAt(queue, full, index);
          state := state.(cleanup := queue[index := Combine(queue[index], full)]);
          return;
        }
      }
      MergeNew(queue, full);
      state := state.(cleanup := queue + [full]);
    }

    method DetachSelection(index: nat)
      requires index < |state.selections|
      modifies this`state
      ensures state == Detach(old(state), index)
    {
      QueueCleanup(DetachJob(state.selections[index]));
      state := state.(selections := Remove(state.selections, index));
      if |state.selections| == 0 {
        if state.active.Some? {
          QueueCleanup(IdentityJob(state.active.value));
        }
        if state.pending.Some? {
          QueueCleanup(IdentityJob(state.pending.value));
        }
        state := state.(active := None, pending := None);
      }
    }

    // --- authorization ---

    predicate Authorized(now: Time)
      reads this
    {
      validUntil.Some? && validUntil.value > now
    }

    function CurrentProfile(id: string, now: Time): (p: Option<Profile>)
      reads this
      ensures p.Some? ==> p.value in profiles && p.value.id == id
    {
      if !Authorized(now) then None else FindProfile(profiles, id)
    }

    /** The selection's profile is still authorized and unchanged. */
    predicate UpToDate(x: Selection, now: Time)
      reads this
    {
      IsUpToDate(profiles, validUntil, x, now)
    }

    predicate ActiveCurrent(now: Time)
      reads this
    {
      && HasCertificate(state.active)
      && var active := state.active.value;
      && active.certificate.value.expiresAt > now
      && (observedAt < active.activatedAt
          || forall x :: x in state.selections ==>
               var p := CurrentProfile(x.profile.id, now);
               p.Some? && p.value.clientFingerprint == active.certificate.value.fingerprint)
    }

    /** Scripted, and nothing is wrong with the configuration. */
    ghost predicate Observable(configuration: Option<(seq<Profile>, int)>, until: Time, at: Time)
      reads this, world
    {
      && world.outside.Scripted? && until > world.outside.now && at >= observedAt && |state.cleanup| <= 16
      && configuration.Some? && configuration.value.1 >= state.epoch && UsableProfiles(configuration.value.0)
    }

    /** Takes a new configuration, or withdraws authorization. The restriction epoch never decreases. */
    method Observe(configuration: Option<(seq<Profile>, int)>, until: Time, at: Time) returns (ok: bool)
      requires Valid()
      modifies this, world`disk, world`exports, world.clock
      ensures old(world.clock.readings) <= world.clock.readings
      ensures Valid()
      ensures state.epoch >= old(state.epoch) && world.Disk().epoch >= old(world.Disk().epoch)
      ensures state.selections == old(state.selections)
      ensures ok ==> && configuration.Some? && profiles == configuration.value.0 && UsableProfiles(profiles)
                     && state == old(state).(epoch := configuration.value.1) && state == world.Disk()
                     && validUntil == Some(until) && observedAt == at >= old(observedAt)
      ensures !ok ==> validUntil == None && Mirrors(state, old(saved))
      ensures old(Observable(configuration, until, at)) ==> ok
    {
      hide Sound, DrawnIdsValid, SelectionsWellFormed, RequestWellFormed, JobExports, SelectedExports, Vouched;
      MirrorsUsable(state, saved, world.ledger);
      var now := world.clock.Now();
      if until <= now || at < observedAt || configuration.None? || configuration.value.1 < state.epoch
         || |configuration.value.0| > 64 {
        validUntil, diagnostic := None, "configuration_unavailable";
        return false;
      }
      var (received, epoch) := configuration.value;
      var usable := AllUsable(received);
      if !usable {
        validUntil, diagnostic := None, "configuration_invalid";
        return false;
      }
      ok := Take(received, epoch, until, at);
    }

    /** A configuration without fault: committed, or authorization is withdrawn. */
    method Take(received: seq<Profile>, epoch: int, until: Time, at: Time) returns (ok: bool)
      requires Valid() && epoch >= state.epoch && UsableProfiles(received)
      modifies this, world`disk, world`exports
      ensures Valid() && state.epoch >= old(state.epoch) && world.Disk().epoch >= old(world.Disk().epoch)
      ensures state.selections == old(state.selections) && profiles == received && observedAt == at
      ensures ok ==> state == old(state).(epoch := epoch) && state == world.Disk() && validUntil == Some(until)
      ensures !ok ==> validUntil == None && state == old(saved)
      ensures world.outside.Scripted? && |old(state).cleanup| <= 16 ==> ok
    {
      hide Conserved, IdsApart, DrawnIdsValid, SelectionsWellFormed, RequestWellFormed, JobExports, SelectedExports,
        Vouched;
      MirrorsUsable(state, saved, world.ledger);
      EpochSound(state, epoch, world.ledger);
      profiles, validUntil, observedAt := received, Some(until), at;
      state := state.(epoch := epoch);
      ok := Save();
    }

    /** Every profile is valid, has an ID of its own, and is of the same subject. */
    method AllUsable(received: seq<Profile>) returns (ok: bool)
      requires |received| <= 64
      ensures ok ==> UsableProfiles(received)
      ensures world.outside.Scripted? ==> ok == UsableProfiles(received)
    {
      for index := 0 to |received|
        invariant UsableProfiles(received[..index])
      {
        assert received[..index + 1] == received[..index] + [received[index]];
        var usable := world.ProfileUsable(received[index]);
        if !usable || (exists k :: 0 <= k < index && received[k].id == received[index].id)
           || received[index].subject != received[0].subject {
          return false;
        }
      }
      assert received[..|received|] == received;
      ok := true;
    }

    // --- identities ---

    /** Leaves a certified, non-stale identity, creating and certifying a new one where needed. */
    method EnsureIdentity(subject: string, drawn: string) returns (ok: bool)
      requires Valid() && state.selections != []
      requires ValidIdentifier(drawn) && drawn !in world.ledger.issued
      modifies this, world`disk, world`exports, world`ledger, world`checks, world.clock
      ensures old(world.clock.readings) <= world.clock.readings
      ensures world.ledger.issued <= old(world.ledger.issued) + {drawn}
      ensures Valid()
      ensures state.selections == old(state.selections) && state.epoch == old(state.epoch)
      ensures profiles == old(profiles)
      ensures ok ==> Ready(state) && (state.pending.None? ==> ServesSince(|old(world.clock.readings)|))
      ensures old(Unidentified()) ==> !ok && RequestCommitted()
      ensures world.outside.Scripted? && old(state.pending).None? && old(ActiveCurrent(world.outside.now))
              && old(state.active).value.certificate.value.expiresAt > world.outside.now + HOUR ==>
                ok
    {
      hide Sound, NativeValuesWellFormed, ExportsKept, Vouched, DrawnIdsValid, Enqueue, Detach;
      DropStalePending();
      var now := world.clock.Now();
      if state.pending.None? && ActiveCurrent(now) && state.active.value.certificate.value.expiresAt > now + HOUR {
        assert Serves(state, profiles, validUntil, observedAt, world.clock.readings[|old(world.clock.readings)|]);
        return true;
      }
      if state.pending.None? {
        ok := DrawPending(drawn);
        if !ok {
          return;
        }
      }
      ok := CertifyPending(subject);
    }

    /** A stale pending identity is queued, in memory. */
    method DropStalePending()
      requires Valid()
      modifies this`state
      ensures Valid() && state == if IsStale(old(state).pending) then DropStale(old(state)) else old(state)
    {
      MirrorsUsable(state, saved, world.ledger);
      if IsStale(state.pending) {
        DropStaleSound(state, world.ledger);
        DropStaleKeepsExports(saved, state, world.ledger);
        QueueCleanup(IdentityJob(state.pending.value));
        state := state.(pending := None);
      }
    }

    ghost predicate ServesSince(since: nat)
      reads this, world.clock
    {
      exists i :: since <= i < |world.clock.readings|
        && Serves(state, profiles, validUntil, observedAt, world.clock.readings[i])
    }

    /** Scripted, with no identity yet and room in the queue. */
    ghost predicate Unidentified()
      reads this, world
    {
      && world.outside.Scripted? && world.outside.csr != ""
      && state.active.None? && state.pending.None? && |state.cleanup| < 16
    }

    /** Scripted, with a pending identity that has neither request nor certificate yet. */
    ghost predicate NoRequest()
      reads this, world
    {
      && world.outside.Scripted? && world.outside.csr != "" && state.pending.Some?
      && state.pending.value.csr == "" && state.pending.value.certificate.None?
    }

    /** The native system's certificate request is on disk as it came. */
    ghost predicate RequestCommitted()
      reads this, world
    {
      && world.outside.Scripted? && state == saved && world.disk == Some(state)
      && state.pending.Some? && state.pending.value.csr == world.outside.csr
    }

    /** A new pending identity, unless the queue is full. */
    method DrawPending(drawn: string) returns (ok: bool)
      requires Consistent() && Mirrors(state, saved) && state.selections != [] && state.pending.None?
      requires ValidIdentifier(drawn) && drawn !in world.ledger.issued
      modifies this, world`disk, world`exports, world`ledger, world`checks
      ensures Valid()
      ensures world.ledger.issued <= old(world.ledger.issued) + {drawn}
      ensures state.selections == old(state.selections) && state.epoch == old(state.epoch)
      ensures profiles == old(profiles)
      ensures ok ==> state.pending.Some? && !state.pending.value.stale
      ensures old(Unidentified()) ==> ok && NoRequest()
    {
      hide Conserved, SelectionsWellFormed, JobExports, SelectedExports;
      MirrorsUsable(state, saved, world.ledger);
      if |state.cleanup| >= 16 {
        return false;
      }
      NewPendingSound(state, drawn, world.ledger);
      world.Issue(drawn);
      state := state.(pending := Some(Identity(drawn, "", None, false, 0)));
      ok := Save();
    }

    method CertifyPending(subject: string) returns (ok: bool)
      requires Valid() && state.pending.Some? && !state.pending.value.stale
      modifies this, world`disk, world`exports, world`ledger, world`checks
      ensures world.ledger.issued == old(world.ledger.issued)
      ensures Valid()
      ensures state.selections == old(state.selections) && state.epoch == old(state.epoch)
      ensures profiles == old(profiles)
      ensures ok ==> Ready(state) && state.pending.Some?
      ensures old(NoRequest()) ==> !ok && RequestCommitted()
    {
      MirrorsUsable(state, saved, world.ledger);
      if state.pending.value.csr == "" {
        ok := RequestKey();
        if !ok {
          return;
        }
      }
      if state.pending.value.certificate.None? {
        ok := RequestCertificate(subject);
        return;
      }
      ok := true;
    }

    method RequestKey() returns (ok: bool)
      requires Valid() && state == saved && state.pending.Some? && !state.pending.value.stale
      requires state.pending.value.csr == ""
      modifies this, world`disk, world`exports, world`ledger, world`checks
      ensures world.ledger.issued == old(world.ledger.issued)
      ensures Valid() && state == saved
      ensures state.selections == old(state.selections) && state.epoch == old(state.epoch)
      ensures profiles == old(profiles)
      ensures ok ==> && state.pending.Some? && !state.pending.value.stale
                     && (state.pending.value.requestId, state.pending.value.csr) in world.ledger.answered
      ensures world.outside.Scripted? ==>
                ok && RequestCommitted() && state.pending.value.certificate == old(state.pending.value.certificate)
    {
      var pending := state.pending.value;
      var csr := world.CreateCsr(pending.requestId);
      if csr.None? {
        return false;
      }
      PendingUpdatedSound(state, pending.(csr := csr.value), world.ledger);
      state := state.(pending := Some(pending.(csr := csr.value)));
      ok := Save();
    }

    method RequestCertificate(subject: string) returns (ok: bool)
      requires Valid() && state == saved && state.pending.Some? && !state.pending.value.stale
      requires state.pending.value.certificate.None?
      modifies this, world`disk, world`exports, world`ledger, world`checks
      ensures world.ledger.issued == old(world.ledger.issued)
      ensures Valid()
      ensures state.selections == old(state.selections) && state.epoch == old(state.epoch)
      ensures profiles == old(profiles)
      ensures ok ==> Ready(state) && state.pending.Some?
      ensures world.ledger.refusals > old(world.ledger.refusals) ==>
                !ok && (IsStale(state.pending) || diagnostic == "state_persistence_failed")
      ensures world.outside.Scripted? ==> !ok && state == old(state) && world.disk == old(world.disk)
    {
      hide SelectionsWellFormed, JobExports, SelectedExports, Conserved, IdsApart;
      var pending := state.pending.value;
      var issued := world.IssueCertificate(pending.requestId, pending.csr, subject);
      match issued
      case IssueStale =>
        PendingUpdatedSound(state, pending.(stale := true), world.ledger);
        state := state.(pending := Some(pending.(stale := true)));
        diagnostic := "certificate_prepare_required";
        var committed := Save();
        ok := false;
      case IssueFailed =>
        ok := false;
      case Issued(certificate) =>
        ok := world.CertificateValid(certificate, pending.csr, subject);
        if ok {
          PendingUpdatedSound(state, pending.(certificate := Some(certificate)), world.ledger);
          state := state.(pending := Some(pending.(certificate := Some(certificate))));
          ok := Save();
        }
    }

    // --- staging ---

    /** Stages the target identity for the forced profile and for every selection that lacks it. */
    method Stage(forced: string) returns (ok: bool)
      requires Valid() && !IsStale(state.pending)
      modifies this`state, this`saved, this`validUntil, this`diagnostic,
        world`disk, world`exports, world`ledger, world`checks, world.clock
      ensures old(world.clock.readings) <= world.clock.readings
      ensures world.ledger.issued == old(world.ledger.issued)
      ensures Valid() && state.epoch == old(state.epoch) && profiles == old(profiles)
      ensures SameProfiles(state.selections, old(state.selections))
      ensures ok ==> CheckedSince(|old(world.clock.readings)|)
      ensures ok ==> && validUntil == old(validUntil) && state.active == old(state.active)
                     && state.pending == old(state.pending) && Ready(state) && Target(state) == old(Target(state))
                     && AllCarry(state.selections, Target(state).value, forced)
                     && (Selected(state.selections, forced) ==> state == saved)
    {
      MirrorsUsable(state, saved, world.ledger);
      var target := Target(state);
      var now := world.clock.Now();
      if !HasCertificate(target) || target.value.certificate.value.expiresAt <= now {
        return false;
      }
      ghost var readings := world.clock.readings;
      ok := StageAll(forced, target.value);
      if ok {
        assert target.value.certificate.value.expiresAt > world.clock.readings[|old(world.clock.readings)|];
        forall x | x in state.selections
          ensures WasUpToDate(world.clock.readings, |old(world.clock.readings)|, profiles, validUntil, x)
        {
          LaterUpToDate(readings, world.clock.readings, |old(world.clock.readings)|, profiles, validUntil, x);
        }
      }
    }

    /** Since then the clock was read with the target certificate unexpired, and for every selection with its profile
        authorized and unchanged. */
    ghost predicate CheckedSince(since: nat)
      reads this, world.clock
    {
      && HasCertificate(Target(state))
      && WasLive(world.clock.readings, since, Target(state).value.certificate.value)
      && AllWereUpToDate(world.clock.readings, since, profiles, validUntil, state.selections)
    }

    lemma CheckedEarlier(since: nat, later: nat)
      requires since <= later && CheckedSince(later)
      ensures CheckedSince(since)
    {
      hide IsUpToDate;
      forall x | x in state.selections
        ensures WasUpToDate(world.clock.readings, since, profiles, validUntil, x)
      {
        assert WasUpToDate(world.clock.readings, later, profiles, validUntil, x);
      }
    }

    method StageAll(forced: string, identity: Identity) returns (ok: bool)
      requires Valid() && !IsStale(state.pending)
      requires Target(state) == Some(identity) && identity.certificate.Some?
      modifies this`state, this`saved, this`validUntil, this`diagnostic,
        world`disk, world`exports, world`ledger, world`checks, world.clock
      ensures old(world.clock.readings) <= world.clock.readings
      ensures world.ledger.issued == old(world.ledger.issued)
      ensures Valid() && state.epoch == old(state.epoch) && profiles == old(profiles)
      ensures SameProfiles(state.selections, old(state.selections))
      ensures ok ==> AllWereUpToDate(world.clock.readings, |old(world.clock.readings)|, profiles, validUntil,
                state.selections)
      ensures ok ==> && validUntil == old(validUntil) && state.active == old(state.active)
                     && state.pending == old(state.pending) && Target(state) == Some(identity)
                       && !IsStale(state.pending)
                     && AllCarry(state.selections, identity, forced)
                     && (Selected(state.selections, forced) ==> state == saved)
    {
      hide AllWereUpToDate, WasUpToDate, IsUpToDate;
      hide Sound, NativeValuesWellFormed, ExportsKept, DrawnIdsValid;
      ghost var committed := false;
      NoneToCheck(world.clock.readings, |world.clock.readings|, profiles, validUntil, state.selections);
      for index := 0 to |state.selections|
        invariant old(world.clock.readings) <= world.clock.readings && validUntil == old(validUntil)
        invariant Valid() && state.epoch == old(state.epoch) && profiles == old(profiles)
        invariant world.ledger.issued == old(world.ledger.issued)
        invariant SameProfiles(state.selections, old(state.selections))
        invariant Target(state) == Some(identity) && state.pending == old(state.pending)
                    && state.active == old(state.active)
        invariant committed ==> state == saved
        invariant AllCarry(state.selections[..index], identity, forced)
        invariant AllWereUpToDate(world.clock.readings, |old(world.clock.readings)|, profiles, validUntil,
                    state.selections[..index])
        invariant Selected(state.selections[..index], forced) ==> committed
      {
        ghost var before, readings := state.selections, world.clock.readings;
        ok := StageOne(index, forced, identity);
        SameProfilesTransitive(state.selections, before, old(state.selections));
        if !ok {
          return;
        }
        LaterUpToDate(readings, world.clock.readings, |old(world.clock.readings)|, profiles, validUntil,
          state.selections[index]);
        OneMoreUpToDate(readings, world.clock.readings, |old(world.clock.readings)|, profiles, validUntil,
          before, state.selections, index);
        CarryOneMore(before, state.selections, index, identity, forced);
        committed := committed || state.selections[index].profile.id == forced;
      }
      assert state.selections[..|state.selections|] == state.selections;
      ok := true;
    }

    method StageOne(index: nat, forced: string, identity: Identity) returns (ok: bool)
      requires Valid() && index < |state.selections|
      requires Target(state) == Some(identity) && identity.certificate.Some? && !IsStale(state.pending)
      modifies this`state, this`saved, this`validUntil, this`diagnostic,
        world`disk, world`exports, world`ledger, world`checks, world.clock
      ensures old(world.clock.readings) <= world.clock.readings
      ensures world.ledger.issued == old(world.ledger.issued)
      ensures Valid() && state.epoch == old(state.epoch) && profiles == old(profiles)
      ensures SameProfiles(state.selections, old(state.selections))
      ensures ok ==> WasUpToDate(world.clock.readings, |old(world.clock.readings)|, profiles, validUntil,
                state.selections[index])
      ensures world.outside.Scripted?
                && old(IsUpToDate(profiles, validUntil, state.selections[index], world.outside.now))
              && old(state).selections[index].fingerprint == identity.certificate.value.fingerprint
              && old(state).selections[index].profile.id != forced ==>
                ok
      ensures ok ==> validUntil == old(validUntil) && Carries(state.selections[index], identity, forced)
      ensures ok ==> state.active == old(state.active) && state.pending == old(state.pending)
      ensures ok ==> state == saved || (state == old(state) && saved == old(saved)
                                        && state.selections[index].profile.id != forced)
      ensures ok ==> state.selections == old(state.selections)[index := state.selections[index]]
    {
      MirrorsUsable(state, saved, world.ledger);
      var x := state.selections[index];
      var now := world.clock.Now();
      if !UpToDate(x, now) {
        return false;
      }
      assert IsUpToDate(profiles, validUntil, x, world.clock.readings[|old(world.clock.readings)|]);
      var profile := CurrentProfile(x.profile.id, now).value;
      var certificate := identity.certificate.value;
      if x.fingerprint == certificate.fingerprint && x.profile.id != forced {
        return true;
      }
      ok := StageFresh(index, profile, identity);
    }

    method StageFresh(index: nat, profile: Profile, identity: Identity) returns (ok: bool)
      requires Valid() && index < |state.selections|
      requires Target(state) == Some(identity) && identity.certificate.Some? && !IsStale(state.pending)
      requires ProfileHash(profile) == ProfileHash(state.selections[index].profile)
      modifies this`state, this`saved, this`validUntil, this`diagnostic,
        world`disk, world`exports, world`ledger, world`checks
      ensures world.ledger.issued == old(world.ledger.issued)
      ensures Valid() && state.epoch == old(state.epoch) && profiles == old(profiles)
      ensures SameProfiles(state.selections, old(state.selections))
      ensures ok ==> state == saved && validUntil == old(validUntil)
      ensures ok ==> state.active == old(state.active) && state.pending == old(state.pending)
      ensures ok ==> state.selections == old(state.selections)[index := state.selections[index]]
      ensures ok ==> && state.selections[index].fingerprint == identity.certificate.value.fingerprint
                     && state.selections[index].requestId == identity.requestId
      ensures ok ==> KnownIdentities(old(state).selections[index]) <= KnownIdentities(state.selections[index])
    {
      hide Sound, NativeValuesWellFormed, ExportsKept, Vouched, DrawnIdsValid, KnownIdentities, IdentityShape;
      hide ValidIdentitySha, Mirrors, StagedState;
      MirrorsUsable(state, saved, world.ledger);
      var x := state.selections[index];
      // Each export can hold a new payload, even for the same certificate.
      if |WithPrior(x)| > 16 {
        return false;
      }
      var staged := StageNative(index, profile, identity);
      if staged.StageFailed? {
        return false;
      }
      ok := CommitStaged(index, identity, staged.artifact, staged.identitySha256);
    }

    /** The native call. */
    method StageNative(index: nat, profile: Profile, identity: Identity) returns (staged: StageResult)
      requires Valid() && index < |state.selections|
      requires Target(state) == Some(identity) && identity.certificate.Some? && !IsStale(state.pending)
      requires ProfileHash(profile) == ProfileHash(state.selections[index].profile)
      modifies world`ledger
      ensures Valid() && world.ledger.issued == old(world.ledger.issued) && identity.requestId in world.ledger.issued
      ensures IdentityShape(Some(identity))
      ensures world.outside.Bounded? && staged.Staged? ==> ValidIdentitySha(staged.identitySha256)
    {
      hide Conserved, IdsApart, NativeValuesWellFormed, JobExports, SelectedExports, Vouched;
      MirrorsUsable(state, saved, world.ledger);
      var x, certificate := state.selections[index], identity.certificate.value;
      StagedCas(state, index, identity);
      StagingKeepsSound(state, Ders(profile.cas) + {certificate.ca.der}, world.ledger);
      assert x in world.Disk().selections;
      staged := world.Stage(identity.requestId, profile, certificate, x.adapter);
    }

    /** Records a staged selection, queueing the export it replaces. */
    method CommitStaged(index: nat, identity: Identity, artifact: Artifact, identitySha256: string) returns (ok: bool)
      requires Consistent() && index < |state.selections| && |WithPrior(state.selections[index])| <= 16
      requires identity.requestId in world.ledger.issued && IdentityShape(Some(identity)) && identity.certificate.Some?
      requires world.outside.Bounded? ==> ValidIdentitySha(identitySha256)
      modifies this`state, this`saved, this`validUntil, this`diagnostic, world`disk, world`exports
      ensures Valid() && state == saved && (ok ==> validUntil == old(validUntil))
      ensures state == if ok then StagedState(old(state), index, identity.requestId,
                         identity.certificate.value.fingerprint, artifact, identitySha256)
                       else old(saved)
      ensures ok ==> KnownIdentities(old(state).selections[index]) <= KnownIdentities(state.selections[index])
      ensures ok ==> && state.selections == old(state.selections)[index := state.selections[index]]
                     && state.selections[index].profile == old(state.selections)[index].profile
                     && state.selections[index].adapter == old(state.selections)[index].adapter
                     && state.selections[index].fingerprint == identity.certificate.value.fingerprint
                     && state.selections[index].requestId == identity.requestId
                     && state.active == old(state.active) && state.pending == old(state.pending)
                     && state.epoch == old(state.epoch)
    {
      hide NativeValuesWellFormed, ValidIdentitySha, ExportsKept;
      var x := state.selections[index];
      var fingerprint := identity.certificate.value.fingerprint;
      StagedSound(state, index, identity.requestId, fingerprint, artifact, identitySha256, world.ledger);
      StagedKeepsIdentities(state, index, identity.requestId, fingerprint, artifact, identitySha256);
      StagedKeepsExports(saved, state, index, identity.requestId, fingerprint, artifact, identitySha256, world.ledger);
      if world.outside.Bounded? {
        StagedWellFormed(state, index, identity.requestId, fingerprint, artifact, identitySha256);
      }
      if x.artifact.path != "" {
        QueueCleanup(ArtifactJob(x.artifact));
      }
      var renewed := Selection(x.profile, x.adapter, fingerprint, identitySha256, WithPrior(x), identity.requestId,
        artifact);
      state := state.(selections := state.selections[index := renewed]);
      ok := Save();
    }

    // --- destroying what is no longer needed ---

    /** Runs the queue from the back, each job without the CAs still in use. */
    method RunCleanup() returns (ok: bool)
      requires Valid()
      modifies this`state, this`saved, this`validUntil, this`diagnostic,
        world`disk, world`exports, world`ledger, world`checks
      ensures world.ledger.issued == old(world.ledger.issued)
      ensures Valid() && profiles == old(profiles)
      ensures state.selections == old(state.selections) && state.epoch == old(state.epoch)
      ensures ok ==> && state == saved && state == old(state).(cleanup := [])
                     && diagnostic == old(diagnostic) && validUntil == old(validUntil)
      ensures !ok ==> diagnostic in {"cleanup_retry_pending", "state_persistence_failed"}
    {
      MirrorsUsable(state, saved, world.ledger);
      DroppedIsQueued(state, saved, world.ledger);
      var retained := LiveCas(state);
      var index := |state.cleanup|;
      while index > 0
        invariant Valid() && profiles == old(profiles) && diagnostic == old(diagnostic) && validUntil == old(validUntil)
        invariant world.ledger.issued == old(world.ledger.issued)
        invariant index == |state.cleanup| && state == old(state).(cleanup := state.cleanup)
        invariant index == 0 ==> state == saved
      {
        index := index - 1;
        ok := RunJob(index, retained);
        if !ok {
          return;
        }
      }
      ok := true;
    }

    method RunJob(index: nat, retained: set<nat>) returns (ok: bool)
      requires Valid() && index < |state.cleanup| && retained == LiveCas(state)
      modifies this`state, this`saved, this`validUntil, this`diagnostic,
        world`disk, world`exports, world`ledger, world`checks
      ensures world.ledger.issued == old(world.ledger.issued)
      ensures Valid() && profiles == old(profiles)
      ensures state.selections == old(state.selections) && state.epoch == old(state.epoch)
      ensures ok ==> && state == saved && state == old(state).(cleanup := Remove(old(state).cleanup, index))
                     && diagnostic == old(diagnostic) && validUntil == old(validUntil)
      ensures !ok ==> diagnostic in {"cleanup_retry_pending", "state_persistence_failed"}
    {
      hide SelectionsWellFormed, JobExports, SelectedExports, Conserved;
      MirrorsUsable(state, saved, world.ledger);
      var job := state.cleanup[index].(cas := Without(state.cleanup[index].cas, retained));
      JobIsDead(state, index, saved, world.ledger);
      CleanupKeepsSound(state, job, false, world.ledger);
      RanJobSound(state, index, world.ledger);
      RanJobKeepsExports(saved, state, index, job, world.ledger);
      ok := world.Cleanup(job, state);
      if !ok {
        diagnostic := "cleanup_retry_pending";
        return;
      }
      state := state.(cleanup := Remove(state.cleanup, index));
      ok := Save();
    }

    /** Tells the native system which exports are still wanted. */
    method RecoverArtifacts() returns (ok: bool)
      requires Valid()
      modifies this`diagnostic, world`recoveries
      ensures Valid() && world.recoveries == old(world.recoveries) + [ok]
      ensures !ok ==> diagnostic != ""
      ensures ok ==> diagnostic == old(diagnostic)
    {
      var retained := Retained(state.selections);
      ok := world.RecoverArtifacts(retained);
      if !ok && diagnostic == "" {
        diagnostic := "cleanup_retry_pending";
      }
    }

    // --- the public operations ---

    /** Selects a profile on an adapter and installs a certified identity for it. */
    method Prepare(profileId: string, adapterId: string, drawn: string) returns (ok: bool)
      requires Valid()
      requires ValidIdentifier(drawn) && drawn !in world.ledger.issued
      modifies this, world`disk, world`exports, world`ledger, world`checks, world`recoveries, world.clock
      ensures old(world.clock.readings) <= world.clock.readings
      ensures world.ledger.issued <= old(world.ledger.issued) + {drawn}
      ensures Valid() && state.epoch == old(state.epoch)
      ensures ok ==> CheckedSince(|old(world.clock.readings)|)
      ensures ok ==> && state == world.Disk() && Ready(state)
                     && exists x :: && x in state.selections && x.profile.id == profileId && x.adapter.id == adapterId
                                    && Carries(x, Target(state).value, profileId)
      ensures old(Unidentified() && Selects(profileId, adapterId)) ==> !ok && RequestCommitted()
      ensures ok ==> world.recoveries == old(world.recoveries) + [true]
    {
      ok := SelectAndStage(profileId, adapterId, drawn);
      var recovered := RecoverArtifacts();
      ok := ok && recovered;
    }

    method SelectAndStage(profileId: string, adapterId: string, drawn: string) returns (ok: bool)
      requires Valid()
      requires ValidIdentifier(drawn) && drawn !in world.ledger.issued
      modifies this, world`disk, world`exports, world`ledger, world`checks, world.clock
      ensures old(world.clock.readings) <= world.clock.readings
      ensures world.ledger.issued <= old(world.ledger.issued) + {drawn}
      ensures Valid() && state.epoch == old(state.epoch)
      ensures ok ==> CheckedSince(|old(world.clock.readings)|)
      ensures ok ==> && state == saved && Ready(state)
                     && exists x :: && x in state.selections && x.profile.id == profileId && x.adapter.id == adapterId
                                    && Carries(x, Target(state).value, profileId)
      ensures old(Unidentified() && Selects(profileId, adapterId)) ==> !ok && RequestCommitted()
    {
      hide CheckedSince, Sound, NativeValuesWellFormed, ExportsKept, Vouched, DrawnIdsValid;
      var profile;
      ok, profile := Select(profileId, adapterId);
      if !ok {
        return;
      }
      ok := EnsureIdentity(profile.subject, drawn);
      if !ok {
        return;
      }
      ghost var selections, readings := state.selections, world.clock.readings;
      ok := Stage(profileId);
      if ok {
        CheckedEarlier(|old(world.clock.readings)|, |readings|);
        ghost var k :| 0 <= k < |selections| && selections[k].profile.id == profileId
          && selections[k].adapter.id == adapterId;
        assert state.selections[k] in state.selections;
      }
    }

    /** Nothing is selected, and the profile and the adapter are there to be. */
    ghost predicate Selects(profileId: string, adapterId: string)
      reads this, world
    {
      && world.outside.Scripted? && state.selections == []
      && var profile := CurrentProfile(profileId, world.outside.now);
      && profile.Some? && FindAdapter(world.outside.adapters, adapterId, profile.value.medium).Some?
    }

    /** Finds the authorized profile and adapter, and commits the selection if it is new. */
    method Select(profileId: string, adapterId: string) returns (ok: bool, profile: Profile)
      requires Valid()
      modifies this, world`disk, world`exports, world.clock
      ensures old(world.clock.readings) <= world.clock.readings
      ensures Valid() && state.epoch == old(state.epoch)
      ensures ok ==> state.selections != [] && profile.id == profileId
                     && exists k :: 0 <= k < |state.selections| && state.selections[k].profile.id == profileId
                                    && state.selections[k].adapter.id == adapterId
      ensures ok && state.selections != old(state.selections) ==>
                var added := state.selections[|state.selections| - 1];
                added.profile == profile && Fits(added.adapter, adapterId, profile.medium)
      ensures old(Unidentified() && Selects(profileId, adapterId)) ==> ok && Unidentified()
    {
      hide Sound, NativeValuesWellFormed, Vouched, ExportsKept, JobExports, SelectedExports;
      MirrorsUsable(state, saved, world.ledger);
      profile := Profile("", "", "", [], "", "");
      var now := world.clock.Now();
      var current := CurrentProfile(profileId, now);
      if current.None? {
        return false, profile;
      }
      profile := current.value;
      var adapters := world.Adapters();
      if adapters.None? {
        return false, profile;
      }
      var index := FindAdapter(adapters.value, adapterId, profile.medium);
      if index.None? || (exists x :: x in state.selections && Conflicts(x, profile, adapterId)) {
        return false, profile;
      }
      ok := true;
      if Selected(state.selections, profileId) {
        ghost var k :| 0 <= k < |state.selections| && state.selections[k].profile.id == profileId;
        assert !Conflicts(state.selections[k], profile, adapterId);
      } else {
        ok := AddSelection(profile, adapters.value[index.value]);
      }
    }

    method AddSelection(profile: Profile, adapter: Adapter) returns (ok: bool)
      requires Valid() && !Selected(state.selections, profile.id) && ValidIdentifier(profile.id)
      requires world.outside.Bounded? ==> adapter.id != ""
      requires forall x :: x in state.selections && x.adapter.id == adapter.id ==> profile.medium != "wired"
      modifies this`state, this`saved, this`validUntil, this`diagnostic, world`disk, world`exports
      ensures Valid() && state.epoch == old(state.epoch)
      ensures ok ==> && |state.selections| > 0
                     && var added := state.selections[|state.selections| - 1];
                        added.profile == profile && added.adapter == adapter
      ensures ok ==> state == old(state).(selections := state.selections)
      ensures world.outside.Scripted? && |old(state.selections)| < 8 && |old(state.cleanup)| <= 16 ==> ok
    {
      hide NativeValuesWellFormed, Sound, JobExports, SelectedExports;
      MirrorsUsable(state, saved, world.ledger);
      if |state.selections| >= 8 {
        return false;
      }
      var added := Selection(profile, adapter, "", "", [], "", NO_ARTIFACT);
      SelectedSound(state, added, world.ledger);
      state := state.(selections := state.selections + [added]);
      ok := Save();
    }

    /** Removes one managed profile, and with the last one the identities. */
    method RemoveProfile(profileId: string) returns (ok: bool)
      requires Valid()
      modifies this, world`disk, world`exports, world`ledger, world`checks, world`recoveries
      ensures world.ledger.issued == old(world.ledger.issued)
      ensures Valid() && state.epoch == old(state.epoch)
      ensures ok ==> && state == world.Disk() && state.cleanup == []
                     && exists i :: && 0 <= i < |old(state.selections)|
                                    && old(state.selections)[i].profile.id == profileId
                                    && state == Detach(old(state), i).(cleanup := [])
      ensures ok ==> !Selected(state.selections, profileId)
      ensures ok ==> world.recoveries == old(world.recoveries) + [true]
    {
      ok := RemoveAndClean(profileId);
      var recovered := RecoverArtifacts();
      ok := ok && recovered;
    }

    method RemoveAndClean(profileId: string) returns (ok: bool)
      requires Valid()
      modifies this, world`disk, world`exports, world`ledger, world`checks
      ensures world.ledger.issued == old(world.ledger.issued)
      ensures Valid() && state.epoch == old(state.epoch)
      ensures ok ==> && state == saved && state.cleanup == []
                     && exists i :: && 0 <= i < |old(state.selections)|
                                    && old(state.selections)[i].profile.id == profileId
                                    && state == Detach(old(state), i).(cleanup := [])
      ensures ok ==> !Selected(state.selections, profileId)
    {
      hide Sound, NativeValuesWellFormed, ExportsKept, Detach;
      MirrorsUsable(state, saved, world.ledger);
      ShapeOfSound(state, world.ledger);
      if !Selected(state.selections, profileId) {
        return false;
      }
      var index := FindSelection(state.selections, profileId);
      var removed;
      ok, removed := RemoveAt(index);
      if !ok {
        return;
      }
      DetachedSelections(old(state), index);
      DistinctAfterRemove(old(state.selections), index);
      ok := RunCleanup();
    }

    /** Removes the native profile, then the selection, and commits. */
    method RemoveAt(index: nat) returns (ok: bool, removed: bool)
      requires Valid() && index < |state.selections|
      modifies this`state, this`saved, this`validUntil, this`diagnostic, world`disk, world`exports
      ensures Valid() && state.epoch == old(state.epoch)
      ensures if ok then state == saved == Detach(old(state), index) && diagnostic == old(diagnostic)
                && validUntil == old(validUntil)
              else state == old(state) || state == old(saved)
      ensures if removed then ok || diagnostic == "state_persistence_failed"
              else !ok && state == old(state) && diagnostic == old(diagnostic)
    {
      hide NativeValuesWellFormed, Sound, JobExports, SelectedExports;
      MirrorsUsable(state, saved, world.ledger);
      var x := state.selections[index];
      removed := world.RemoveProfile(
        x.profile, x.adapter, x.priors + [PriorIdentity(x.fingerprint, x.identitySha256)]);
      if !removed {
        return false, false;
      }
      DetachSound(state, index, world.ledger);
      DetachedWellFormed(state, index);
      DetachKeepsExports(saved, state, index, world.ledger);
      DetachSelection(index);
      ok := Save();
    }

    /** One maintenance pass: drop outdated selections, renew, confirm installation, activate, clean up.
        A pass without a diagnostic leaves nothing pending and nothing queued. */
    method Check(drawn: string) returns (ok: bool)
      requires Valid()
      requires ValidIdentifier(drawn) && drawn !in world.ledger.issued
      modifies this, world`disk, world`exports, world`ledger, world`checks, world`recoveries, world`answers, world.clock
      ensures old(world.clock.readings) <= world.clock.readings
      ensures world.ledger.issued <= old(world.ledger.issued) + {drawn}
      ensures Valid() && state.epoch == old(state.epoch)
      ensures ok && diagnostic == "" ==> Settled(state) && state == world.Disk()
      ensures ok && diagnostic == "" ==> InstalledSince(|old(world.answers)|)
      ensures ok && diagnostic == "" && state.selections != [] ==>
                && ExpiresLater(|old(world.clock.readings)|)
                && (ServesSince(|old(world.clock.readings)|) || ActivatedSince(|old(world.clock.readings)|))
      ensures ok ==> diagnostic in {"", "certificate_prepare_required", "installation_or_readback_required"}
      ensures ok ==> world.recoveries == old(world.recoveries) + [true]
    {
      ok := CheckAndClean(drawn);
      var recovered := RecoverArtifacts();
      ok := ok && recovered;
    }

    method CheckAndClean(drawn: string) returns (ok: bool)
      requires Valid()
      requires ValidIdentifier(drawn) && drawn !in world.ledger.issued
      modifies this, world`disk, world`exports, world`ledger, world`checks, world`answers, world.clock
      ensures old(world.clock.readings) <= world.clock.readings
      ensures world.ledger.issued <= old(world.ledger.issued) + {drawn}
      ensures Valid() && state.epoch == old(state.epoch)
      ensures ok && diagnostic == "" ==> Settled(state) && state == saved
      ensures ok && diagnostic == "" ==> InstalledSince(|old(world.answers)|)
      ensures ok && diagnostic == "" && state.selections != [] ==>
                && ExpiresLater(|old(world.clock.readings)|)
                && (ServesSince(|old(world.clock.readings)|) || ActivatedSince(|old(world.clock.readings)|))
      ensures ok ==> diagnostic in {"", "certificate_prepare_required", "installation_or_readback_required"}
    {
      hide Serves, ActivatedSince;
      hide Sound, NativeValuesWellFormed, ExportsKept, DrawnIdsValid, AllInstalledSince, Uninstalled, AllWereUpToDate,
        OnlyOutdatedGone;
      diagnostic := "";
      ok := RemoveOutdated();
      if !ok {
        return;
      }
      ShapeOfSound(state, world.ledger);
      if |state.selections| == 0 {
        ok := RunCleanup();
        return;
      }
      if IsStale(state.pending) {
        diagnostic := "certificate_prepare_required";
        return true;
      }
      ok := Renew(drawn);
      if ok {
        ok := FinishAndServe(|old(world.clock.readings)|);
      }
    }

    /** The rest of the pass; what served before it, serves still unless another identity was activated. */
    method FinishAndServe(ghost since: nat) returns (ok: bool)
      requires Valid() && !IsStale(state.pending) && state.selections != [] && diagnostic == ""
      requires since <= |world.clock.readings|
      requires state.pending.None? && HasCertificate(state.active) ==> ServesSince(since)
      modifies this`state, this`saved, this`validUntil, this`diagnostic,
        world`disk, world`exports, world`ledger, world`checks, world`answers, world.clock
      ensures old(world.clock.readings) <= world.clock.readings
      ensures world.ledger.issued == old(world.ledger.issued)
      ensures Valid() && state.epoch == old(state.epoch)
      ensures ok && diagnostic == "" ==> Settled(state) && state == saved && InstalledSince(|old(world.answers)|)
      ensures ok && diagnostic == "" ==>
                HasCertificate(state.active) && ExpiresLater(|old(world.clock.readings)|)
                && (ServesSince(since) || ActivatedSince(since))
      ensures ok ==> diagnostic in {"", "installation_or_readback_required"}
    {
      hide Sound, NativeValuesWellFormed, ExportsKept, Vouched, DrawnIdsValid, Serves, InstalledSince, Settled;
      ghost var i := 0;
      if ServesSince(since) {
        i :| since <= i < |world.clock.readings|
             && Serves(state, profiles, validUntil, observedAt, world.clock.readings[i]);
      }
      ghost var serves, readings, before := ServesSince(since), world.clock.readings, state;
      ok := FinishInstalled();
      if ok && diagnostic == "" && before.pending.None? && serves {
        ServesStill(before, state, profiles, validUntil, observedAt, readings[i]);
      }
    }

    /** Goes on only with a live certificate that every selection is installed with. */
    method FinishInstalled() returns (ok: bool)
      requires Valid() && !IsStale(state.pending) && state.selections != [] && diagnostic == ""
      modifies this`state, this`saved, this`validUntil, this`diagnostic,
        world`disk, world`exports, world`ledger, world`checks, world`answers, world.clock
      ensures old(world.clock.readings) <= world.clock.readings
      ensures world.ledger.issued == old(world.ledger.issued)
      ensures Valid() && state.epoch == old(state.epoch)
      ensures ok && diagnostic == "" ==>
                if old(state).pending.None? then
                  && state.active == old(state).active && validUntil == old(validUntil)
                  && SameProfiles(state.selections, old(state).selections)
                else ActivatedSince(|old(world.clock.readings)|)
      ensures |world.clock.readings| > |old(world.clock.readings)|
      ensures var first, target := world.clock.readings[|old(world.clock.readings)|], Target(old(state));
              !HasCertificate(target) || target.value.certificate.value.expiresAt <= first ==>
                !ok && diagnostic == "certificate_expired"
      ensures ok ==> diagnostic in {"", "installation_or_readback_required"}
      ensures ok && diagnostic == "" ==> Settled(state) && state == saved && InstalledSince(|old(world.answers)|)
      ensures ok && diagnostic == "" ==>
                HasCertificate(state.active) && ExpiresLater(|old(world.clock.readings)|)
    {
      hide Sound, NativeValuesWellFormed, ExportsKept, DrawnIdsValid, AllInstalledSince, Uninstalled;
      var now := world.clock.Now();
      if !HasCertificate(Target(state)) || Target(state).value.certificate.value.expiresAt <= now {
        diagnostic := "certificate_expired";
        return false;
      }
      assert world.clock.readings[|old(world.clock.readings)|] == now;
      var certificate := Target(state).value.certificate.value;
      ghost var since := |world.answers|;
      var installed := AllInstalled(certificate);
      if !installed {
        diagnostic := "installation_or_readback_required";
        return true;
      }
      ok := Finish(certificate, since);
    }

    /** Since then the native system said of every selection that it is installed with the active certificate, as it was
        before it was marked active. */
    ghost predicate InstalledSince(since: nat)
      reads this, world
    {
      state.selections != [] ==>
        && HasCertificate(state.active) && since <= |world.answers|
        && exists c :: SameButStatus(c, state.active.value.certificate.value)
                       && AllReadBack(world.answers[since..], state.selections, c)
    }

    /** At a reading since then the active certificate had not expired. */
    ghost predicate ExpiresLater(since: nat)
      reads this, world.clock
    {
      HasCertificate(state.active) ==> WasLive(world.clock.readings, since, state.active.value.certificate.value)
    }

    /** The active identity was activated at a reading since then. */
    ghost predicate ActivatedSince(since: nat)
      reads this, world.clock
    {
      state.active.Some? && exists i ::
        since <= i < |world.clock.readings| && state.active.value.activatedAt == world.clock.readings[i]
    }

    /** The installed target identity becomes active, and the queue is run. */
    method Finish(certificate: Certificate, ghost since: nat) returns (ok: bool)
      requires Valid() && !IsStale(state.pending) && state.selections != []
      requires HasCertificate(Target(state)) && Target(state).value.certificate.value == certificate
      requires AllInstalledSince(since, certificate)
      modifies this`state, this`saved, this`validUntil, this`diagnostic,
        world`disk, world`exports, world`ledger, world`checks, world.clock
      ensures old(world.clock.readings) <= world.clock.readings
      ensures world.ledger.issued == old(world.ledger.issued)
      ensures Valid() && state.epoch == old(state.epoch)
      ensures ok ==> Settled(state) && state == saved && InstalledSince(since) && diagnostic == old(diagnostic)
      ensures ok ==> if old(state).pending.None? then
                       && state.active == old(state).active && validUntil == old(validUntil)
                       && SameProfiles(state.selections, old(state).selections)
                     else ActivatedSince(|old(world.clock.readings)|)
      ensures ok ==> HasCertificate(state.active) && SameButStatus(certificate, state.active.value.certificate.value)
    {
      hide Sound, NativeValuesWellFormed, ExportsKept, Vouched, DrawnIdsValid;
      ok := ConfirmAndActivate(certificate, since);
      if !ok {
        return;
      }
      ok := RunCleanup();
      assert ok ==> AllReadBack(world.answers[since..], state.selections, certificate);
      assert ok ==> SameButStatus(certificate, state.active.value.certificate.value);
    }

    /** Clears what installed selections need no more, and activates the pending identity if there is one. */
    method ConfirmAndActivate(certificate: Certificate, ghost since: nat) returns (ok: bool)
      requires Valid() && !IsStale(state.pending) && state.selections != []
      requires HasCertificate(Target(state)) && Target(state).value.certificate.value == certificate
      requires AllInstalledSince(since, certificate)
      modifies this`state, this`saved, this`validUntil, this`diagnostic,
        world`disk, world`exports, world`ledger, world.clock
      ensures old(world.clock.readings) <= world.clock.readings
      ensures world.ledger.issued == old(world.ledger.issued)
      ensures Valid() && state.epoch == old(state.epoch)
      ensures ok ==> diagnostic == old(diagnostic) && state.pending.None? && HasCertificate(state.active)
      ensures ok ==> && SameButStatus(certificate, state.active.value.certificate.value)
                     && AllClean(state.selections, state.active.value.certificate.value)
                     && AllReadBack(world.answers[since..], state.selections, certificate)
                     && SameProfiles(state.selections, old(state).selections)
      ensures ok ==> if old(state).pending.None? then state.active == old(state).active && validUntil == old(validUntil)
                     else ActivatedSince(|old(world.clock.readings)|)
    {
      hide Sound, NativeValuesWellFormed, ExportsKept, Vouched, DrawnIdsValid;
      ok := ConfirmInstalled(certificate, since);
      if ok && state.pending.Some? {
        ok := ActivatePending(certificate, since);
      }
    }

    /** Removes every selection whose profile is gone or changed, from the back. Success leaves selections that
        were up to date at a reading of the clock in this call, and removed only ones that at one were not. */
    method RemoveOutdated() returns (ok: bool)
      requires Valid()
      modifies this`state, this`saved, this`validUntil, this`diagnostic, world`disk, world`exports, world.clock
      ensures old(world.clock.readings) <= world.clock.readings
      ensures Valid() && state.epoch == old(state.epoch)
      ensures !ok ==> diagnostic in {"configuration_removal_failed", "state_persistence_failed"}
      ensures ok ==> diagnostic == old(diagnostic) && validUntil == old(validUntil)
      ensures ok ==> AllWereUpToDate(
                       world.clock.readings, |old(world.clock.readings)|, profiles, validUntil, state.selections)
      ensures ok ==> OnlyOutdatedGone(world.clock.readings, |old(world.clock.readings)|, profiles, validUntil,
                                      state.selections, old(state.selections))
    {
      hide AllWereUpToDate, OnlyOutdatedGone, IsUpToDate, Detach;
      ghost var since, first := |world.clock.readings|, state.selections;
      var index := |state.selections|;
      NothingGone(world.clock.readings, profiles, validUntil, state.selections);
      while index > 0
        invariant old(world.clock.readings) <= world.clock.readings
        invariant Valid() && state.epoch == old(state.epoch) && diagnostic == old(diagnostic)
                  && validUntil == old(validUntil)
        invariant 0 <= index <= |state.selections|
        invariant AllWereUpToDate(world.clock.readings, since, profiles, validUntil, state.selections[index..])
        invariant OnlyOutdatedGone(world.clock.readings, since, profiles, validUntil, state.selections, first)
      {
        index := index - 1;
        ok := RemoveIfOutdated(index, since, first);
        if !ok {
          return;
        }
      }
      assert state.selections[0..] == state.selections;
      ok := true;
    }

    method RemoveIfOutdated(index: nat, ghost since: nat, ghost first: seq<Selection>) returns (ok: bool)
      requires Valid() && index < |state.selections| && since <= |world.clock.readings|
      requires AllWereUpToDate(world.clock.readings, since, profiles, validUntil, state.selections[index + 1..])
      requires OnlyOutdatedGone(world.clock.readings, since, profiles, validUntil, state.selections, first)
      modifies this`state, this`saved, this`validUntil, this`diagnostic, world`disk, world`exports, world.clock
      ensures old(world.clock.readings) <= world.clock.readings
      ensures Valid() && state.epoch == old(state.epoch)
      ensures !ok ==> diagnostic in {"configuration_removal_failed", "state_persistence_failed"}
      ensures ok ==> diagnostic == old(diagnostic) && validUntil == old(validUntil) && index <= |state.selections|
      ensures ok ==> AllWereUpToDate(world.clock.readings, since, profiles, validUntil, state.selections[index..])
      ensures ok ==> OnlyOutdatedGone(world.clock.readings, since, profiles, validUntil, state.selections, first)
    {
      hide AllWereUpToDate, OnlyOutdatedGone, IsUpToDate, Sound;
      ghost var readings := world.clock.readings;
      var now := world.clock.Now();
      OneMoreReading(readings, now, since, profiles, validUntil, state.selections, index, first);
      ok := true;
      if !UpToDate(state.selections[index], now) {
        MirrorsUsable(state, saved, world.ledger);
        var removed;
        ok, removed := RemoveAt(index);
        if !removed {
          diagnostic := "configuration_removal_failed";
        }
      }
    }

    /** Issues and stages a new identity when the active one expires soon or is no longer named. */
    method Renew(drawn: string) returns (ok: bool)
      requires Valid() && state.selections != [] && !IsStale(state.pending)
      requires ValidIdentifier(drawn) && drawn !in world.ledger.issued
      modifies this, world`disk, world`exports, world`ledger, world`checks, world.clock
      ensures old(world.clock.readings) <= world.clock.readings
      ensures world.ledger.issued <= old(world.ledger.issued) + {drawn}
      ensures Valid() && state.epoch == old(state.epoch)
      ensures SameProfiles(state.selections, old(state.selections))
      ensures ok ==> !IsStale(state.pending) && diagnostic == old(diagnostic)
      ensures ok && state.pending.None? && HasCertificate(state.active) ==> ServesSince(|old(world.clock.readings)|)
    {
      hide Sound, NativeValuesWellFormed, ExportsKept, Vouched, DrawnIdsValid;
      var now := world.clock.Now();
      ok := true;
      if state.pending.None? && HasCertificate(state.active)
         && (!ActiveCurrent(now) || state.active.value.certificate.value.expiresAt <= now + HOUR) {
        ok := Reissue(drawn);
      } else if state.pending.None? && HasCertificate(state.active) {
        assert Serves(state, profiles, validUntil, observedAt, world.clock.readings[|old(world.clock.readings)|]);
      }
    }

    /** Issues and stages a new identity, unless the active one serves after all. */
    method Reissue(drawn: string) returns (ok: bool)
      requires Valid() && state.selections != [] && !IsStale(state.pending)
      requires ValidIdentifier(drawn) && drawn !in world.ledger.issued
      modifies this, world`disk, world`exports, world`ledger, world`checks, world.clock
      ensures old(world.clock.readings) <= world.clock.readings
      ensures world.ledger.issued <= old(world.ledger.issued) + {drawn}
      ensures Valid() && state.epoch == old(state.epoch)
      ensures SameProfiles(state.selections, old(state.selections))
      ensures ok ==> !IsStale(state.pending) && diagnostic == old(diagnostic)
      ensures ok && state.pending.None? && HasCertificate(state.active) ==> ServesSince(|old(world.clock.readings)|)
      ensures ok ==> CheckedSince(|old(world.clock.readings)|)
    {
      hide Sound, NativeValuesWellFormed, ExportsKept, Vouched, DrawnIdsValid, AllWereUpToDate, WasLive, Serves;
      hide World.Safe, Mirrors, AllCarry, Selected;
      var before := diagnostic;
      ok := EnsureIdentity(state.selections[0].profile.subject, drawn);
      if !ok {
        diagnostic := "certificate_renewal_failed";
        return;
      }
      ghost var i := 0;
      if state.pending.None? {
        i :| |old(world.clock.readings)| <= i < |world.clock.readings|
             && Serves(state, profiles, validUntil, observedAt, world.clock.readings[i]);
      }
      ghost var readings, prepared := world.clock.readings, state;
      ok := Stage("");
      if ok {
        CheckedEarlier(|old(world.clock.readings)|, |readings|);
      }
      if ok && state.pending.None? {
        ServesStill(prepared, state, profiles, validUntil, observedAt, readings[i]);
      }
      diagnostic := if ok then before else "certificate_installation_required";
    }

    /** Every selection carries the certificate and reads back as installed. */
    method AllInstalled(certificate: Certificate) returns (installed: bool)
      requires Valid()
      modifies world`answers
      ensures Valid() && old(world.answers) <= world.answers
      ensures installed ==> AllInstalledSince(|old(world.answers)|, certificate)
      ensures !installed ==> exists x :: x in state.selections && Uninstalled(x, |old(world.answers)|, certificate)
    {
      hide Sound, NativeValuesWellFormed, ExportsKept, Mirrors, DrawnIdsValid;
      for index := 0 to |state.selections|
        invariant Valid() && old(world.answers) <= world.answers
        invariant forall k :: 0 <= k < index ==> state.selections[k].fingerprint == certificate.fingerprint
        invariant AllReadBack(world.answers[|old(world.answers)|..], state.selections[..index], certificate)
      {
        var x := state.selections[index];
        if x.fingerprint != certificate.fingerprint {
          assert Uninstalled(x, |old(world.answers)|, certificate);
          return false;
        }
        ghost var before := world.answers;
        var readable := world.Readback(x.requestId, x.profile, certificate, x.adapter);
        assert world.answers[|old(world.answers)|..] == before[|old(world.answers)|..] + [world.answers[|before|]];
        assert state.selections[..index + 1] == state.selections[..index] + [x];
        if !readable {
          assert Uninstalled(x, |old(world.answers)|, certificate);
          return false;
        }
      }
      assert state.selections[..|state.selections|] == state.selections;
      installed := true;
    }

    /** Every selection carries the certificate and was read back with it since. */
    ghost predicate AllInstalledSince(since: nat, certificate: Certificate)
      reads this, world
    {
      && since <= |world.answers| && AllReadBack(world.answers[since..], state.selections, certificate)
      && forall x :: x in state.selections ==> x.fingerprint == certificate.fingerprint
    }

    /** The selection carries another certificate, or was read back since as not installed. */
    ghost predicate Uninstalled(x: Selection, since: nat, certificate: Certificate)
      reads world
    {
      || x.fingerprint != certificate.fingerprint
      || (since <= |world.answers|
        && Answer(x.requestId, x.profile, certificate, x.adapter, false) in world.answers[since..])
    }

    /** Installed profiles need neither their earlier identities nor their exported files. */
    method ConfirmInstalled(certificate: Certificate, ghost since: nat) returns (ok: bool)
      requires Valid() && !IsStale(state.pending) && AllInstalledSince(since, certificate)
      modifies this`state, this`saved, this`validUntil, this`diagnostic, world`disk, world`exports
      ensures Valid() && state.epoch == old(state.epoch)
      ensures ok ==> AllInstalledSince(since, certificate) && validUntil == old(validUntil)
      ensures ok ==> && state.active == old(state.active) && state.pending == old(state.pending)
                     && AllClean(state.selections, certificate) && diagnostic == old(diagnostic)
                     && SameProfiles(state.selections, old(state.selections))
    {
      hide NativeValuesWellFormed, JobExports, SelectedExports;
      MirrorsUsable(state, saved, world.ledger);
      ghost var before := state.selections;
      var changed := ClearExports(certificate);
      StillReadBack(world.answers[since..], state.selections, before, certificate);
      ok := true;
      if changed {
        ok := Save();
      }
    }

    method ClearExports(certificate: Certificate) returns (changed: bool)
      requires Sound(state, world.ledger) && DrawnIdsValid(world.ledger)
      requires forall x :: x in state.selections ==> x.fingerprint == certificate.fingerprint
      modifies this`state
      ensures Sound(state, world.ledger)
      ensures state == old(state).(selections := state.selections, cleanup := state.cleanup)
      ensures AllClean(state.selections, certificate) && SameProfiles(state.selections, old(state.selections))
      ensures !changed ==> state == old(state)
      ensures old(NativeValuesWellFormed(state)) ==> NativeValuesWellFormed(state)
      ensures old(ExportsKept(saved, state, world.ledger)) ==> ExportsKept(saved, state, world.ledger)
      ensures SameRequests(state.selections, old(state.selections))
    {
      hide Sound, ExportsKept, DrawnIdsValid, NativeValuesWellFormed;
      changed := false;
      for index := 0 to |state.selections|
        invariant state == old(state).(selections := state.selections, cleanup := state.cleanup)
        invariant Confirming(old(state), state, index, certificate)
        invariant Sound(state, world.ledger)
        invariant !changed ==> state == old(state)
        invariant old(NativeValuesWellFormed(state)) ==> NativeValuesWellFormed(state)
        invariant old(ExportsKept(saved, state, world.ledger)) ==> ExportsKept(saved, state, world.ledger)
        invariant SameRequests(state.selections, old(state.selections))
      {
        ConfirmedSound(state, index, world.ledger);
        ConfirmedWellFormed(state, index);
        ConfirmedKeepsExports(saved, state, index, world.ledger);
        ConfirmedStep(old(state), state, index, certificate);
        var cleared := ClearOne(index);
        changed := changed || cleared;
      }
      assert state.selections[..|state.selections|] == state.selections;
    }

    method ClearOne(index: nat) returns (cleared: bool)
      requires index < |state.selections|
      modifies this`state
      ensures state == ConfirmedState(old(state), index)
      ensures !cleared ==> state == old(state)
    {
      var x := state.selections[index];
      cleared := |x.priors| > 0;
      if x.artifact.path != "" {
        QueueCleanup(ArtifactJob(x.artifact));
        cleared := true;
      }
      state := state.(selections := state.selections[index := Confirmed(x)]);
    }

    /** Reports the installed identity to the control plane and makes it the active one. */
    method ActivatePending(certificate: Certificate, ghost since: nat) returns (ok: bool)
      requires Valid() && state.pending.Some? && !state.pending.value.stale && AllInstalledSince(since, certificate)
      requires state.pending.value.certificate == Some(certificate)
      modifies this`state, this`saved, this`validUntil, this`diagnostic, world`disk, world`exports,
        world`ledger, world.clock
      ensures old(world.clock.readings) <= world.clock.readings
      ensures Valid() && state.epoch == old(state.epoch) && world.ledger.issued == old(world.ledger.issued)
      ensures world.ledger.refusals > old(world.ledger.refusals) ==>
                !ok && (IsStale(state.pending) || diagnostic == "state_persistence_failed")
      ensures ok ==> state == saved && diagnostic == old(diagnostic)
      ensures ok ==> && world.clock.readings != old(world.clock.readings)
                     && state == Activated(old(state), Last(world.clock.readings))
    {
      hide SelectionsWellFormed, DrawnIdsValid, Conserved, IdsApart, JobExports, SelectedExports;
      MirrorsUsable(state, saved, world.ledger);
      var pending := state.pending.value;
      var result := world.ActivateCertificate(certificate, since);
      match result
      case ActivateFailed =>
        diagnostic := "activation_retry_pending";
        ok := false;
      case ActivateStale =>
        PendingUpdatedSound(state, pending.(stale := true), world.ledger);
        state := state.(pending := Some(pending.(stale := true)));
        diagnostic := "certificate_prepare_required";
        var committed := Save();
        ok := false;
      case Receipt(matches) =>
        if !matches {
          return false;
        }
        var now := world.clock.Now();
        ActivatedSound(state, now, world.ledger);
        ActivatedKeepsExports(saved, state, now, world.ledger);
        ghost var before := state;
        if state.active.Some? {
          QueueCleanup(IdentityJob(state.active.value));
        }
        var installed := pending.(certificate := Some(certificate.(status := "active")), activatedAt := now);
        state := state.(active := Some(installed), pending := None);
        assert state == Activated(before, now);
        ok := Save();
    }
  }

  /** The selection carries the certificate and keeps neither earlier identities nor an export. */
  predicate Clean(x: Selection, certificate: Certificate) {
    x.fingerprint == certificate.fingerprint && x.priors == [] && x.artifact.path == ""
  }

  predicate AllClean(xs: seq<Selection>, certificate: Certificate) {
    forall x :: x in xs ==> Clean(x, certificate)
  }

  /** Nothing pending, nothing queued, and every selection is the active identity's, fully installed. */
  predicate Settled(s: State) {
    && s.pending.None? && s.cleanup == []
    && (s.selections == [] ==> s.active.None?)
    && (s.selections != [] ==> HasCertificate(s.active))
    && forall x :: x in s.selections ==>
         HasCertificate(s.active) && Clean(x, s.active.value.certificate.value)
  }

  /** The first n selections are clean, the others as before; only fields that hold no ID or CA moved. */
  ghost predicate Confirming(before: State, s: State, n: nat, certificate: Certificate) {
    && |s.selections| == |before.selections| && n <= |s.selections|
    && SameProfiles(s.selections, before.selections)
    && AllClean(s.selections[..n], certificate)
    && s.selections[n..] == before.selections[n..]
  }

  /** A selection without its earlier identities and export. */
  function Confirmed(x: Selection): Selection {
    x.(priors := [], artifact := if x.artifact.path != "" then NO_ARTIFACT else x.artifact)
  }

  function ConfirmedState(s: State, n: nat): State
    requires n < |s.selections|
  {
    var x := s.selections[n];
    s.(selections := s.selections[n := Confirmed(x)],
       cleanup := if x.artifact.path != "" then Enqueue(s.cleanup, ArtifactJob(x.artifact)) else s.cleanup)
  }

  lemma ConfirmedSound(s: State, n: nat, l: Ledger)
    requires Sound(s, l) && DrawnIdsValid(l) && n < |s.selections|
    ensures Sound(ConfirmedState(s, n), l)
  {
    hide Conserved, IdsApart;
    var x, t := s.selections[n], ConfirmedState(s, n);
    EnqueueKeepsAll(s.cleanup, ArtifactJob(x.artifact));
    assert SelectionShape(x, l);
    forall y | y in t.selections
      ensures SelectionShape(y, l)
    {
      var k :| 0 <= k < |t.selections| && t.selections[k] == y;
      if k != n {
        assert y == s.selections[k];
      }
    }
    LiveIdsNamed(s, l);
    RestagingSound(s, t, l);
  }

  lemma ConfirmedKeepsExports(before: State, s: State, n: nat, l: Ledger)
    requires n < |s.selections|
    ensures ExportsKept(before, s, l) ==> ExportsKept(before, ConfirmedState(s, n), l)
  {
    var t := ConfirmedState(s, n);
    EnqueueKeepsExports(s.cleanup, ArtifactJob(s.selections[n].artifact));
    forall y | y in s.selections && y != s.selections[n]
      ensures y in t.selections
    {
      var k :| 0 <= k < |s.selections| && s.selections[k] == y;
      assert t.selections[k] == y;
    }
  }

  /** The selections carry the same certificates, under the same request IDs. */
  predicate SameRequests(xs: seq<Selection>, ys: seq<Selection>) {
    |xs| == |ys| && forall k :: 0 <= k < |xs| ==>
      xs[k].requestId == ys[k].requestId && xs[k].fingerprint == ys[k].fingerprint
  }

  lemma StillReadBack(answers: seq<Answer>, xs: seq<Selection>, ys: seq<Selection>, certificate: Certificate)
    requires SameProfiles(xs, ys) && SameRequests(xs, ys) && AllReadBack(answers, ys, certificate)
    ensures AllReadBack(answers, xs, certificate)
  {
    forall x | x in xs
      ensures ReadBack(answers, x, certificate)
    {
      var k :| 0 <= k < |xs| && xs[k] == x;
      assert ReadBack(answers, ys[k], certificate);
    }
  }

  lemma ConfirmedWellFormed(s: State, n: nat)
    requires n < |s.selections|
    ensures NativeValuesWellFormed(s) ==> NativeValuesWellFormed(ConfirmedState(s, n))
  {
    assert s.selections[n] in s.selections;
  }

  lemma ConfirmedStep(before: State, s: State, n: nat, certificate: Certificate)
    requires n < |s.selections| && Confirming(before, s, n, certificate)
    requires forall x :: x in before.selections ==> x.fingerprint == certificate.fingerprint
    ensures Confirming(before, ConfirmedState(s, n), n + 1, certificate)
  {
  }

  predicate Fits(adapter: Adapter, id: string, medium: string) {
    adapter.id == id && adapter.medium == medium && adapter.enabled
  }

  function FindAdapter(adapters: seq<Adapter>, id: string, medium: string): (r: Option<nat>)
    ensures r.Some? ==> r.value < |adapters| && Fits(adapters[r.value], id, medium)
    ensures r.None? ==> forall i :: 0 <= i < |adapters| ==> !Fits(adapters[i], id, medium)
  {
    if adapters == [] then None
    else if adapters[0].id == id && adapters[0].medium == medium && adapters[0].enabled then Some(0)
    else
      assert forall i :: 0 < i < |adapters| ==> adapters[i] == adapters[1..][i - 1];
      var rest := FindAdapter(adapters[1..], id, medium);
      if rest.None? then None else Some(rest.value + 1)
  }

  function FindSelection(xs: seq<Selection>, id: string): (r: nat)
    requires Selected(xs, id)
    ensures r < |xs| && xs[r].profile.id == id
  {
    if xs[0].profile.id == id then 0
    else
      assert forall x :: x in xs <==> x == xs[0] || x in xs[1..];
      FindSelection(xs[1..], id) + 1
  }

  /** The profile is on another adapter, or the wired adapter carries another profile. */
  predicate Conflicts(x: Selection, profile: Profile, adapterId: string) {
    || (x.profile.id == profile.id && x.adapter.id != adapterId)
    || (x.profile.id != profile.id && x.adapter.id == adapterId && profile.medium == "wired")
  }

  lemma SelectedSound(s: State, added: Selection, l: Ledger)
    requires Sound(s, l) && |s.selections| < 8
    requires !Selected(s.selections, added.profile.id) && ValidIdentifier(added.profile.id)
    requires forall x :: x in s.selections && x.adapter.id == added.adapter.id ==> added.profile.medium != "wired"
    requires added.fingerprint == "" && added.priors == []
    ensures Sound(s.(selections := s.selections + [added]), l)
    ensures HeldExports(s) <= HeldExports(s.(selections := s.selections + [added]))
    ensures NativeValuesWellFormed(s) && added.adapter.id != "" && added.identitySha256 == "" ==>
              NativeValuesWellFormed(s.(selections := s.selections + [added]))
  {
    SelectedShape(s, added, l);
    hide Shape;
  }

  lemma SelectedShape(s: State, added: Selection, l: Ledger)
    requires Shape(s, l) && |s.selections| < 8
    requires !Selected(s.selections, added.profile.id) && ValidIdentifier(added.profile.id)
    requires forall x :: x in s.selections && x.adapter.id == added.adapter.id ==> added.profile.medium != "wired"
    requires added.fingerprint == "" && added.priors == []
    ensures Shape(s.(selections := s.selections + [added]), l)
  {
  }

  /** A dropped stale identity waits in the queue. */
  lemma DroppedIsQueued(memory: State, disk: State, l: Ledger)
    requires Mirrors(memory, disk) && Sound(disk, l) && DrawnIdsValid(l)
    ensures memory.cleanup == [] ==> memory == disk
  {
  }

  /** A queued job without the retained CAs names nothing alive, in memory or on disk. */
  lemma JobIsDead(memory: State, i: nat, disk: State, l: Ledger)
    requires i < |memory.cleanup| && Mirrors(memory, disk)
    requires Sound(memory, l) && Sound(disk, l) && DrawnIdsValid(l)
    ensures var job := memory.cleanup[i].(cas := Without(memory.cleanup[i].cas, LiveCas(memory)));
            && NamesNothingLive(memory, job) && NamesNothingUsable(disk, job)
            && NamesNothingUsable(memory, job) && job.requestId in l.issued + {""}
  {
  }

  /** The same profiles are selected, in the same order. */
  predicate SameProfiles(xs: seq<Selection>, ys: seq<Selection>) {
    |xs| == |ys| && forall k :: 0 <= k < |xs| ==> xs[k].profile == ys[k].profile && xs[k].adapter == ys[k].adapter
  }

  /** The selection carries the identity's certificate; the forced one also its request. */
  predicate Carries(x: Selection, identity: Identity, forced: string) {
    && identity.certificate.Some? && x.fingerprint == identity.certificate.value.fingerprint
    && (x.profile.id == forced ==> x.requestId == identity.requestId)
  }

  /** The exports the selections still refer to. */
  method Retained(selections: seq<Selection>) returns (retained: seq<Artifact>)
    ensures forall a :: a in retained <==> a.path != "" && exists x :: x in selections && x.artifact == a
  {
    retained := [];
    for index := 0 to |selections|
      invariant forall a :: a in retained <==>
                  a.path != "" && exists k :: 0 <= k < index && selections[k].artifact == a
    {
      if selections[index].artifact.path != "" {
        retained := retained + [selections[index].artifact];
      }
    }
  }

  predicate AllCarry(xs: seq<Selection>, identity: Identity, forced: string) {
    forall x :: x in xs ==> Carries(x, identity, forced)
  }

  predicate Selected(xs: seq<Selection>, id: string) {
    exists x :: x in xs && x.profile.id == id
  }

  lemma SameProfilesTransitive(xs: seq<Selection>, ys: seq<Selection>, zs: seq<Selection>)
    requires SameProfiles(xs, ys) && SameProfiles(ys, zs)
    ensures SameProfiles(xs, zs)
  {
  }

  lemma CarryOneMore(before: seq<Selection>, after: seq<Selection>, n: nat, identity: Identity, forced: string)
    requires n < |before| == |after| && after == before[n := after[n]]
    requires AllCarry(before[..n], identity, forced) && Carries(after[n], identity, forced)
    ensures AllCarry(after[..n + 1], identity, forced)
    ensures Selected(after[..n + 1], forced) <==> Selected(before[..n], forced) || after[n].profile.id == forced
  {
    assert after[..n + 1] == before[..n] + [after[n]];
  }

  /** What staging one selection installs is in use. */
  lemma StagedCas(s: State, i: nat, identity: Identity)
    requires i < |s.selections| && Target(s) == Some(identity) && identity.certificate.Some? && !IsStale(s.pending)
    ensures Ders(s.selections[i].profile.cas) + {identity.certificate.value.ca.der} <= UsableCas(s)
    ensures identity.requestId in UsableIds(s)
  {
  }

  function FindProfile(profiles: seq<Profile>, id: string): (p: Option<Profile>)
    ensures p.Some? ==> p.value in profiles && p.value.id == id
  {
    if profiles == [] then None
    else if profiles[0].id == id then Some(profiles[0])
    else FindProfile(profiles[1..], id)
  }
}
