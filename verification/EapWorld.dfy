/** Everything outside the EAP manager: the state file, the native system, the control plane, the
    clock. Every call may fail and every answer is arbitrary within its contract. Safe is required
    and kept by every call that changes anything, so it holds at every point a crash can happen. */
module EapWorld {
  import opened Wrappers
  import opened Protocol
  import opened EapState

  datatype IssueResult = Issued(certificate: Certificate) | IssueStale | IssueFailed

  datatype ActivateResult = Receipt(matches: bool) | ActivateStale | ActivateFailed

  datatype StageResult = Staged(artifact: Artifact, identitySha256: string) | StageFailed

  /** The job names no identity and no CA that the state holds live. */
  ghost predicate NamesNothingLive(s: State, job: Job) {
    job.requestId !in LiveIds(s) && Ders(job.cas) !! LiveCas(s)
  }

  /** The job names no identity and no CA in use; a stale pending identity is not in use. */
  ghost predicate NamesNothingUsable(s: State, job: Job) {
    job.requestId !in UsableIds(s) && Ders(job.cas) !! UsableCas(s)
  }

  /** What is known of the outside: nothing; that the native system names its adapters, keeps certificate requests
      within 4096 characters and identity hashes well formed, failing otherwise; or all of it: no write fails, time
      stands still, the native system gives these answers, and the control plane issues nothing. */
  datatype Outside = Unknown | Bounded | Scripted(adapters: seq<Adapter>, csr: string, now: Time)

  /** What the native system answered when asked whether a profile is installed. */
  datatype Answer = Answer(requestId: string, profile: Profile, certificate: Certificate, adapter: Adapter,
                           installed: bool)

  /** The selection was read back as installed with the certificate. */
  ghost predicate ReadBack(answers: seq<Answer>, x: Selection, certificate: Certificate) {
    Answer(x.requestId, x.profile, certificate, x.adapter, true) in answers
  }

  ghost predicate AllReadBack(answers: seq<Answer>, xs: seq<Selection>, certificate: Certificate) {
    forall x :: x in xs ==> ReadBack(answers, x, certificate)
  }

  predicate SameButStatus(c: Certificate, d: Certificate) {
    c.(status := "") == d.(status := "")
  }

  /** A certificate that passed the checks against its request, for a subject. */
  datatype Check = Check(certificate: Certificate, csr: string, subject: string)

  /** The identity's certificate, if it has one, passed the checks against the identity's own request. */
  ghost predicate Vouched(checks: set<Check>, identity: Option<Identity>) {
    identity.Some? && identity.value.certificate.Some? ==>
      && identity.value.csr != ""
      && exists c, subject :: SameButStatus(c, identity.value.certificate.value)
                              && Check(c, identity.value.csr, subject) in checks
  }

  predicate AllNamed(adapters: seq<Adapter>) {
    forall i :: 0 <= i < |adapters| ==> adapters[i].id != ""
  }

  /** The clock; every reading is recorded. */
  class Clock {
    const fixed: Option<Time>
    ghost var readings: seq<Time>

    constructor (fixed: Option<Time>)
      ensures this.fixed == fixed && readings == []
    {
      this.fixed, readings := fixed, [];
    }

    method Now() returns (now: Time)
      modifies this
      ensures readings == old(readings) + [now] && (fixed.Some? ==> now == fixed.value)
    {
      now := *;
      if fixed.Some? {
        now := fixed.value;
      }
      readings := readings + [now];
    }
  }

  class World {
    const outside: Outside
    const clock: Clock
    var disk: Option<State>
    ghost var ledger: Ledger
    ghost var answers: seq<Answer>
    ghost var checks: set<Check>
    /** How each recovery of exports went. */
    ghost var recoveries: seq<bool>
    /** Every export that the state file ever referred to. */
    ghost var exports: set<Artifact>

    /** The durable state; a missing file stands for the initial state. */
    ghost function Disk(): State
      reads this`disk
    {
      if disk.Some? then disk.value else INITIAL
    }

    /** What a restart after a crash relies on. */
    ghost predicate Safe()
      reads this
    {
      && DrawnIdsValid(ledger)
      && Sound(Disk(), ledger)
      && |Disk().cleanup| <= 16
      && WithinBounds(Disk()) && (outside.Scripted? ==> clock.fixed == Some(outside.now))
      && exports <= HeldExports(Disk()) + ledger.cleanedExports
      && Vouched(checks, Disk().active) && Vouched(checks, Disk().pending)
    }

    /** With a bounded outside, every state holds only values within the bounds. */
    ghost predicate WithinBounds(s: State) {
      outside.Bounded? ==> NativeValuesWellFormed(s)
    }

    constructor (outside: Outside)
      ensures Safe() && disk == None && this.outside == outside && fresh(clock)
      ensures ledger == Ledger({}, {}, {}, {}, {}, {}, {}, {}, 0)
    {
      this.outside := outside;
      clock := new Clock(if outside.Scripted? then Some(outside.now) else None);
      disk := None;
      ledger, answers, checks, exports := Ledger({}, {}, {}, {}, {}, {}, {}, {}, 0), [], {}, {};
      recoveries := [];
    }

    /** Replaces the state file; a failed write leaves it as it was. The epoch on disk never decreases, and an export
        the file refers to is not forgotten before it was cleaned. */
    method WriteFile(s: State) returns (ok: bool)
      requires Safe() && Sound(s, ledger) && |s.cleanup| <= 16 && s.epoch >= Disk().epoch && WithinBounds(s)
      requires ExportsKept(Disk(), s, ledger) && Vouched(checks, s.active) && Vouched(checks, s.pending)
      modifies this`disk, this`exports
      ensures Safe() && Disk().epoch >= old(Disk().epoch)
      ensures if ok then disk == Some(s) && exports == old(exports) + HeldExports(s)
              else disk == old(disk) && exports == old(exports)
      ensures outside.Scripted? ==> ok
    {
      var fails: bool := *;
      ok := !fails || outside.Scripted?;
      if ok {
        disk, exports := Some(s), exports + HeldExports(s);
      }
    }

    /** Records that a random request ID was drawn. */
    ghost method Issue(id: string)
      requires Safe() && ValidIdentifier(id)
      modifies this`ledger
      ensures Safe()
      ensures ledger == old(ledger).(issued := old(ledger).issued + {id})
    {
      ledger := ledger.(issued := ledger.issued + {id});
    }

    /** Creates a key and its request. Only for the pending identity on disk. */
    method CreateCsr(id: string) returns (csr: Option<string>)
      requires Safe() && Disk().pending.Some? && !Disk().pending.value.stale && id == Disk().pending.value.requestId
      modifies this`ledger
      ensures Safe()
      ensures ledger == old(ledger).(requested := old(ledger).requested + {id},
                                     answered := old(ledger).answered + if csr.Some? then {(id, csr.value)} else {})
      ensures outside.Bounded? && csr.Some? ==> |csr.value| <= 4096
      ensures outside.Scripted? ==> csr == Some(outside.csr)
    {
      csr := *;
      if outside.Scripted? {
        csr := Some(outside.csr);
      } else if outside.Bounded? && csr.Some? && |csr.value| > 4096 {
        csr := None;
      }
      ledger := ledger.(requested := ledger.requested + {id},
                        answered := ledger.answered + if csr.Some? then {(id, csr.value)} else {});
    }

    /** Installs a profile. Only a selected one on its adapter, with the usable identity and CAs that the state file
        already holds. */
    method Stage(id: string, profile: Profile, certificate: Certificate, adapter: Adapter) returns (r: StageResult)
      requires Safe() && UsableTarget(Disk()).Some? && UsableTarget(Disk()).value.requestId == id
      requires UsableTarget(Disk()).value.certificate == Some(certificate)
      requires exists x :: && x in Disk().selections && ProfileHash(x.profile) == ProfileHash(profile)
                           && x.adapter == adapter
      requires Ders(profile.cas) + {certificate.ca.der} <= UsableCas(Disk())
      modifies this`ledger
      ensures Safe()
      ensures ledger == old(ledger).(staged := old(ledger).staged + (Ders(profile.cas) + {certificate.ca.der}))
      ensures outside.Bounded? && r.Staged? ==> ValidIdentitySha(r.identitySha256)
    {
      r := *;
      if outside.Bounded? && r.Staged? && !ValidIdentitySha(r.identitySha256) {
        r := StageFailed;
      }
      ledger := ledger.(staged := ledger.staged + (Ders(profile.cas) + {certificate.ca.der}));
    }

    /** Destroys what the job names. Never called for anything live in memory or in use on disk. */
    method Cleanup(job: Job, ghost memory: State) returns (ok: bool)
      requires Safe() && job.requestId in ledger.issued + {""}
      requires NamesNothingLive(memory, job) && NamesNothingUsable(Disk(), job)
      modifies this`ledger
      ensures Safe()
      ensures ledger == CleanedLedger(old(ledger), job, ok)
    {
      hide NativeValuesWellFormed, Shape, Conserved, IdsApart, Vouched, JobExports, SelectedExports;
      ok := *;
      CleanupKeepsSound(Disk(), job, ok, ledger);
      ledger := CleanedLedger(ledger, job, ok);
    }

    method Adapters() returns (adapters: Option<seq<Adapter>>)
      ensures outside.Bounded? && adapters.Some? ==> AllNamed(adapters.value)
      ensures outside.Scripted? ==> adapters == Some(outside.adapters)
    {
      adapters := *;
      if outside.Scripted? {
        adapters := Some(outside.adapters);
      } else if outside.Bounded? && adapters.Some? && !AllNamed(adapters.value) {
        adapters := None;
      }
    }

    method ProfileUsable(profile: Profile) returns (ok: bool)
      ensures ok ==> ValidIdentifier(profile.id)
      ensures outside.Scripted? ==> ok == ValidIdentifier(profile.id)
    {
      var unusable: bool := *;
      ok := (!unusable || outside.Scripted?) && ValidIdentifier(profile.id);
    }

    /** Asks the control plane for a certificate. Only with the request of the pending identity on disk. */
    method IssueCertificate(id: string, csr: string, subject: string) returns (r: IssueResult)
      requires Disk().pending.Some? && !Disk().pending.value.stale
      requires Safe() && Disk().pending.value.requestId == id && Disk().pending.value.csr == csr
      modifies this`ledger
      ensures Safe() && ledger == old(ledger).(refusals := old(ledger).refusals + if r.IssueStale? then 1 else 0)
      ensures outside.Scripted? ==> r == IssueFailed
    {
      r := *;
      if outside.Scripted? {
        r := IssueFailed;
      }
      ledger := ledger.(refusals := ledger.refusals + if r.IssueStale? then 1 else 0);
    }

    /** Checks a certificate against a request; what passed is recorded. */
    method CertificateValid(certificate: Certificate, csr: string, subject: string) returns (ok: bool)
      requires Safe()
      modifies this`checks
      ensures Safe() && checks == if ok then old(checks) + {Check(certificate, csr, subject)} else old(checks)
      ensures ok ==> ValidHash(certificate.fingerprint) && csr != ""
    {
      ok := *;
      ok := ok && ValidHash(certificate.fingerprint) && csr != "";
      if ok {
        checks := checks + {Check(certificate, csr, subject)};
      }
    }

    /** Asks whether the profile is installed; the answer is recorded. */
    method Readback(id: string, profile: Profile, certificate: Certificate, adapter: Adapter) returns (ok: bool)
      modifies this`answers
      ensures answers == old(answers) + [Answer(id, profile, certificate, adapter, ok)]
    {
      ok := *;
      answers := answers + [Answer(id, profile, certificate, adapter, ok)];
    }

    /** Removes a native profile. Only a selected one from its adapter, with every identity known for it. */
    method RemoveProfile(profile: Profile, adapter: Adapter, identities: seq<PriorIdentity>) returns (ok: bool)
      requires exists x :: && x in Disk().selections && x.profile == profile && x.adapter == adapter
                           && KnownIdentities(x) <= set p | p in identities
    {
      ok := *;
    }

    /** Reports the certificate as installed. Only once every selection on disk was read back with it, since. */
    method ActivateCertificate(certificate: Certificate, ghost since: nat) returns (r: ActivateResult)
      requires Safe() && since <= |answers| && AllReadBack(answers[since..], Disk().selections, certificate)
      modifies this`ledger
      ensures Safe() && ledger == old(ledger).(refusals := old(ledger).refusals + if r.ActivateStale? then 1 else 0)
    {
      r := *;
      ledger := ledger.(refusals := ledger.refusals + if r.ActivateStale? then 1 else 0);
    }

    /** Removes the exports that are not retained. Retained are exactly those that selections on disk refer to. */
    method RecoverArtifacts(retained: seq<Artifact>) returns (ok: bool)
      requires Safe() && (set a | a in retained) == SelectedExports(Disk().selections)
      modifies this`recoveries
      ensures Safe() && recoveries == old(recoveries) + [ok]
    {
      ok := *;
      recoveries := recoveries + [ok];
    }
  }
}
