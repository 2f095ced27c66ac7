/** The EAP identity manager's state: selections, the active and pending identity, and the queue of
    things to destroy; with the invariants every committed and every in-memory state keeps. */
module EapState {
  import opened Sequences
  import opened Wrappers
  import opened Protocol

  /** A parsed CA certificate: its text, and the hash of its DER form. Two texts may share a DER form. */
  datatype CaCertificate = CaCertificate(text: string, der: nat)

  datatype Certificate = Certificate(
    credentialId: string, ca: CaCertificate, fingerprint: string, expiresAt: Time, status: string)

  /** An admission profile; settings stands for the fields the manager only compares. */
  datatype Profile = Profile(
    id: string, medium: string, subject: string, cas: seq<CaCertificate>, settings: string, clientFingerprint: string)

  datatype Adapter = Adapter(id: string, medium: string, enabled: bool)

  datatype Artifact = Artifact(path: string, sha256: string)

  datatype PriorIdentity = PriorIdentity(fingerprint: string, identitySha256: string)

  datatype Selection = Selection(
    profile: Profile, adapter: Adapter, fingerprint: string, identitySha256: string,
    priors: seq<PriorIdentity>, requestId: string, artifact: Artifact)

  datatype Identity = Identity(
    requestId: string, csr: string, certificate: Option<Certificate>, stale: bool, activatedAt: Time)

  datatype Job = Job(
    requestId: string, certificate: Option<Certificate>, cas: seq<CaCertificate>, artifacts: seq<Artifact>)

  datatype State = State(
    epoch: int, selections: seq<Selection>, active: Option<Identity>, pending: Option<Identity>, cleanup: seq<Job>)

  const NO_ARTIFACT := Artifact("", "")
  const INITIAL := State(0, [], None, None, [])

  /** What happened in the world so far. */
  datatype Ledger = Ledger(
    issued: set<string>,    // every random request ID drawn
    requested: set<string>, // request IDs a key was created for
    answered: set<(string, string)>, // the request IDs with the certificate requests created for them
    staged: set<nat>,       // CAs (by DER hash) installed by some Stage call
    destroyed: set<string>, // request IDs named in any cleanup call
    cleanedIds: set<string>, cleanedCas: set<nat>, cleanedExports: set<Artifact>, // named in successful cleanup calls
    refusals: nat) // how often the control plane called an identity stale

  /** The profile without the one field that may change while it is selected. */
  function ProfileHash(p: Profile): Profile {
    p.(clientFingerprint := "")
  }

  // --- the cleanup queue ---

  function AddMissing<T(==,!new)>(xs: seq<T>, ys: seq<T>): (r: seq<T>)
    ensures forall x :: x in r <==> x in xs || x in ys
    decreases |ys|
  {
    if ys == [] then xs
    else
      assert ys == [ys[0]] + ys[1..];
      AddMissing(if ys[0] in xs then xs else xs + [ys[0]], ys[1..])
  }

  /** The stored job with everything the new job names. */
  function Combine(stored: Job, job: Job): Job {
    Job(stored.requestId,
        if stored.certificate.None? then job.certificate else stored.certificate,
        AddMissing(stored.cas, job.cas),
        AddMissing(stored.artifacts, job.artifacts))
  }

  function Merge(queue: seq<Job>, job: Job): (r: seq<Job>)
    ensures |queue| <= |r| <= |queue| + 1
  {
    if queue == [] then [job]
    else if queue[0].requestId == job.requestId then [Combine(queue[0], job)] + queue[1..]
    else [queue[0]] + Merge(queue[1..], job)
  }

  /** A job also cleans up the issuer of the certificate it carries. */
  function WithIssuer(job: Job): Job {
    if job.certificate.None? then job else job.(cas := job.cas + [job.certificate.value.ca])
  }

  predicate NothingToDo(job: Job) {
    job.requestId == "" && job.cas == [] && job.artifacts == []
  }

  /** The queue after a job is added: merged into the first job with the same request ID. */
  function Enqueue(queue: seq<Job>, job: Job): (r: seq<Job>)
    ensures |queue| <= |r| <= |queue| + 1
  {
    if NothingToDo(WithIssuer(job)) then queue else Merge(queue, WithIssuer(job))
  }

  function JobIds(queue: seq<Job>): set<string> {
    set j | j in queue :: j.requestId
  }

  function Ders(cas: seq<CaCertificate>): set<nat> {
    set c | c in cas :: c.der
  }

  function JobCas(queue: seq<Job>): set<nat> {
    set j, c | j in queue && c in j.cas :: c.der
  }

  function IdentityCas(identity: Option<Identity>): set<nat> {
    if identity.Some? && identity.value.certificate.Some? then {identity.value.certificate.value.ca.der} else {}
  }

  function IdentityIds(identity: Option<Identity>): set<string> {
    if identity.Some? then {identity.value.requestId} else {}
  }

  function SelectionCas(selections: seq<Selection>): set<nat> {
    set s, c | s in selections && c in s.profile.cas :: c.der
  }

  lemma DersAddMissing(xs: seq<CaCertificate>, ys: seq<CaCertificate>)
    ensures Ders(AddMissing(xs, ys)) == Ders(xs) + Ders(ys)
  {
  }

  lemma SplitQueue(queue: seq<Job>)
    requires queue != []
    ensures JobIds(queue) == {queue[0].requestId} + JobIds(queue[1..])
    ensures JobCas(queue) == Ders(queue[0].cas) + JobCas(queue[1..])
  {
  }

  lemma JoinQueue(first: Job, rest: seq<Job>)
    ensures JobIds([first] + rest) == {first.requestId} + JobIds(rest)
    ensures JobCas([first] + rest) == Ders(first.cas) + JobCas(rest)
  {
  }

  /** Merging forgets no request ID and no CA. */
  lemma {:induction false} MergeKeepsAll(queue: seq<Job>, job: Job)
    ensures JobIds(Merge(queue, job)) == JobIds(queue) + {job.requestId}
    ensures JobCas(Merge(queue, job)) == JobCas(queue) + Ders(job.cas)
  {
    if queue == [] {
      JoinQueue(job, []);
    } else {
      SplitQueue(queue);
      if queue[0].requestId == job.requestId {
        DersAddMissing(queue[0].cas, job.cas);
        JoinQueue(Combine(queue[0], job), queue[1..]);
      } else {
        MergeKeepsAll(queue[1..], job);
        JoinQueue(queue[0], Merge(queue[1..], job));
      }
    }
  }

  /** Adding a job forgets nothing: exactly the job's ID, CAs and issuer join the queue. */
  lemma EnqueueKeepsAll(queue: seq<Job>, job: Job)
    ensures JobIds(Enqueue(queue, job))
            == JobIds(queue) + if NothingToDo(WithIssuer(job)) then {} else {job.requestId}
    ensures JobCas(Enqueue(queue, job))
            == JobCas(queue) + Ders(job.cas) + if job.certificate.Some? then {job.certificate.value.ca.der} else {}
  {
    var full := WithIssuer(job);
    assert Ders(full.cas) == Ders(job.cas) + if job.certificate.Some? then {job.certificate.value.ca.der} else {} by {
      assert forall c :: c in full.cas <==>
        c in job.cas || (job.certificate.Some? && c == job.certificate.value.ca);
    }
    if !NothingToDo(full) {
      MergeKeepsAll(queue, full);
    }
  }

  // --- exported files ---

  function JobExports(queue: seq<Job>): set<Artifact> {
    set j, a | j in queue && a in j.artifacts :: a
  }

  function SelectedExports(selections: seq<Selection>): set<Artifact> {
    set x | x in selections && x.artifact.path != "" :: x.artifact
  }

  /** The exports a state refers to: by a selection, or in the queue. */
  function HeldExports(s: State): set<Artifact> {
    SelectedExports(s.selections) + JobExports(s.cleanup)
  }

  /** What the earlier state refers to, the later one does, unless it was cleaned. */
  ghost predicate ExportsKept(before: State, after: State, l: Ledger) {
    HeldExports(before) <= HeldExports(after) + l.cleanedExports
  }

  /** Some job of the request ID carries a certificate. */
  predicate CertificateQueued(queue: seq<Job>, requestId: string) {
    exists j :: j in queue && j.requestId == requestId && j.certificate.Some?
  }

  lemma JoinExports(first: Job, rest: seq<Job>)
    ensures JobExports([first] + rest) == (set a | a in first.artifacts) + JobExports(rest)
  {
  }

  lemma {:induction false} MergeKeepsExports(queue: seq<Job>, job: Job)
    ensures JobExports(Merge(queue, job)) == JobExports(queue) + set a | a in job.artifacts
    ensures job.certificate.Some? ==> CertificateQueued(Merge(queue, job), job.requestId)
  {
    var merged := Merge(queue, job);
    if queue == [] {
      assert merged[0] in merged;
    } else {
      JoinExports(queue[0], queue[1..]);
      assert queue == [queue[0]] + queue[1..];
      if queue[0].requestId == job.requestId {
        assert merged[0] in merged;
        JoinExports(Combine(queue[0], job), queue[1..]);
      } else {
        MergeKeepsExports(queue[1..], job);
        JoinExports(queue[0], Merge(queue[1..], job));
      }
    }
  }

  /** Adding a job forgets no export and no certificate: exactly the job's exports join the queue. */
  lemma EnqueueKeepsExports(queue: seq<Job>, job: Job)
    ensures JobExports(Enqueue(queue, job)) == JobExports(queue) + set a | a in job.artifacts
    ensures job.certificate.Some? ==> CertificateQueued(Enqueue(queue, job), job.requestId)
  {
    if !NothingToDo(WithIssuer(job)) {
      MergeKeepsExports(queue, WithIssuer(job));
    }
  }

  // --- what a state holds on to ---

  function LiveIds(s: State): set<string> {
    IdentityIds(s.active) + IdentityIds(s.pending)
  }

  /** CAs a selection or the active or pending identity still needs. */
  function LiveCas(s: State): set<nat> {
    SelectionCas(s.selections) + IdentityCas(s.active) + IdentityCas(s.pending)
  }

  predicate IsStale(identity: Option<Identity>) {
    identity.Some? && identity.value.stale
  }

  /** Request IDs in use: the active one, and the pending one unless it is stale. */
  function UsableIds(s: State): set<string> {
    IdentityIds(s.active) + if IsStale(s.pending) then {} else IdentityIds(s.pending)
  }

  /** CAs in use: a stale pending identity needs none. */
  function UsableCas(s: State): set<nat> {
    SelectionCas(s.selections) + IdentityCas(s.active) + if IsStale(s.pending) then {} else IdentityCas(s.pending)
  }

  /** The identity in use: the pending one unless it is stale, else the active one. */
  function UsableTarget(s: State): Option<Identity> {
    if s.pending.Some? && !s.pending.value.stale then s.pending else s.active
  }

  /** Everything ever created is held live, queued, or cleaned. */
  ghost predicate Conserved(s: State, l: Ledger) {
    && l.requested <= LiveIds(s) + JobIds(s.cleanup) + l.cleanedIds
    && l.staged <= LiveCas(s) + JobCas(s.cleanup) + l.cleanedCas
  }

  /** Request IDs are drawn IDs; no identity shares one with another identity or with the queue;
      nothing in use was ever named in a cleanup. */
  ghost predicate IdsApart(s: State, l: Ledger) {
    && LiveIds(s) <= l.issued
    && JobIds(s.cleanup) <= l.issued + {""}
    && (s.active.Some? && s.pending.Some? ==> s.active.value.requestId != s.pending.value.requestId)
    && LiveIds(s) !! JobIds(s.cleanup)
    && UsableIds(s) !! l.destroyed
  }

  ghost predicate DrawnIdsValid(l: Ledger) {
    && (forall id :: id in l.issued ==> ValidIdentifier(id))
    && l.destroyed <= l.issued && l.requested <= l.issued
  }

  predicate HexDigits(s: string) {
    forall i :: 0 <= i < |s| ==> '0' <= s[i] <= '9' || 'a' <= s[i] <= 'f'
  }

  /** sha256: and 64 hexadecimal digits. */
  predicate ValidHash(s: string) {
    |s| == 71 && s[..7] == "sha256:" && HexDigits(s[7..])
  }

  predicate DistinctProfiles(selections: seq<Selection>) {
    forall i, j :: 0 <= i < j < |selections| ==> selections[i].profile.id != selections[j].profile.id
  }

  /** A wired profile is the only one on its adapter when it is selected. */
  predicate WiredApart(selections: seq<Selection>) {
    forall i, j :: 0 <= i < j < |selections| && selections[i].adapter.id == selections[j].adapter.id ==>
      selections[j].profile.medium != "wired"
  }

  predicate SelectionShape(s: Selection, l: Ledger) {
    && ValidIdentifier(s.profile.id)
    && (s.fingerprint != "" ==> s.requestId in l.issued && ValidHash(s.fingerprint))
    && |s.priors| <= 16
    && forall p :: p in s.priors ==> ValidHash(p.fingerprint)
  }

  predicate IdentityShape(identity: Option<Identity>) {
    identity.Some? && identity.value.certificate.Some? ==> ValidHash(identity.value.certificate.value.fingerprint)
  }

  ghost predicate Shape(s: State, l: Ledger) {
    && s.epoch >= 0
    && |s.selections| <= 8
    && DistinctProfiles(s.selections) && WiredApart(s.selections)
    && (forall x :: x in s.selections ==> SelectionShape(x, l))
    && IdentityShape(s.active) && IdentityShape(s.pending)
    && (s.selections == [] ==> s.active.None? && s.pending.None?)
  }

  /** The invariant of every state, in memory or on disk. */
  ghost predicate Sound(s: State, l: Ledger) {
    Shape(s, l) && IdsApart(s, l) && Conserved(s, l)
  }

  lemma ShapeOfSound(s: State, l: Ledger)
    requires Sound(s, l)
    ensures DistinctProfiles(s.selections) && (s.selections == [] ==> s.active.None? && s.pending.None?)
  {
  }

  // --- restarting from a committed state ---

  predicate ValidIdentitySha(s: string) {
    s == "" || ValidHash("sha256:" + s)
  }

  /** The constructor's checks on the stored file. */
  predicate RestartAccepts(s: State) {
    && s.epoch >= 0 && |s.selections| <= 8 && |s.cleanup| <= 16
    && (forall i :: 0 <= i < |s.selections| ==>
          var x := s.selections[i];
          && ValidIdentifier(x.profile.id) && x.adapter.id != ""
          && (x.fingerprint != "" ==> ValidIdentifier(x.requestId))
          && |x.priors| <= 16
          && (forall p :: p in x.priors ==> ValidHash(p.fingerprint) && ValidIdentitySha(p.identitySha256))
          && ValidIdentitySha(x.identitySha256))
    && DistinctProfiles(s.selections)
    && (s.active.Some? ==> ValidIdentifier(s.active.value.requestId) && |s.active.value.csr| <= 4096)
    && (s.pending.Some? ==> ValidIdentifier(s.pending.value.requestId) && |s.pending.value.csr| <= 4096)
  }

  /** Every value that came from the native system has the form the constructor expects. */
  predicate NativeValuesWellFormed(s: State) {
    SelectionsWellFormed(s.selections) && RequestWellFormed(s.active) && RequestWellFormed(s.pending)
  }

  predicate SelectionsWellFormed(xs: seq<Selection>) {
    forall x :: x in xs ==>
      && x.adapter.id != "" && ValidIdentitySha(x.identitySha256)
      && forall p :: p in x.priors ==> ValidIdentitySha(p.identitySha256)
  }

  predicate RequestWellFormed(identity: Option<Identity>) {
    identity.Some? ==> |identity.value.csr| <= 4096
  }

  /** A committed state is accepted on restart exactly when the native values in it are well formed. */
  lemma RestartExactly(s: State, l: Ledger)
    requires Sound(s, l) && DrawnIdsValid(l) && |s.cleanup| <= 16
    ensures RestartAccepts(s) <==> NativeValuesWellFormed(s)
  {
    hide ValidIdentitySha, ValidIdentifier, ValidHash, WiredApart, Conserved;
    assert Shape(s, l) && LiveIds(s) <= l.issued;
    forall i | 0 <= i < |s.selections|
      ensures SelectionShape(s.selections[i], l)
    {
      assert s.selections[i] in s.selections;
    }
    if RestartAccepts(s) {
      forall x | x in s.selections
        ensures x.adapter.id != "" && ValidIdentitySha(x.identitySha256)
        ensures forall p :: p in x.priors ==> ValidIdentitySha(p.identitySha256)
      {
        var i :| 0 <= i < |s.selections| && s.selections[i] == x;
      }
    }
  }

  // --- the transitions ---

  function IdentityJob(identity: Identity): Job {
    Job(identity.requestId, identity.certificate, [], [])
  }

  function ArtifactJob(artifact: Artifact): Job {
    Job("", None, [], [artifact])
  }

  /** A stale pending identity is queued and dropped. */
  function DropStale(s: State): State
    requires s.pending.Some?
  {
    s.(cleanup := Enqueue(s.cleanup, IdentityJob(s.pending.value)), pending := None)
  }

  function DetachJob(x: Selection): Job {
    Job("", None, x.profile.cas, if x.artifact.path != "" then [x.artifact] else [])
  }

  function EnqueueIdentity(queue: seq<Job>, identity: Option<Identity>): seq<Job> {
    if identity.None? then queue else Enqueue(queue, IdentityJob(identity.value))
  }

  /** A selection is removed and its CAs queued; with the last one both identities go too. */
  function Detach(s: State, i: nat): State
    requires i < |s.selections|
  {
    var queue := Enqueue(s.cleanup, DetachJob(s.selections[i]));
    var rest := Remove(s.selections, i);
    if rest == [] then
      State(s.epoch, rest, None, None, EnqueueIdentity(EnqueueIdentity(queue, s.active), s.pending))
    else
      s.(selections := rest, cleanup := queue)
  }

  /** The pending identity becomes the active one; the old active one is queued. */
  function Activated(s: State, at: Time): State
    requires s.pending.Some? && s.pending.value.certificate.Some?
  {
    var p := s.pending.value;
    var certificate := p.certificate.value.(status := "active");
    s.(cleanup := EnqueueIdentity(s.cleanup, s.active),
       active := Some(p.(certificate := Some(certificate), activatedAt := at)),
       pending := None)
  }

  lemma DropStaleSound(s: State, l: Ledger)
    requires Sound(s, l) && DrawnIdsValid(l) && IsStale(s.pending)
    ensures Sound(DropStale(s), l)
    ensures UsableIds(DropStale(s)) == UsableIds(s) && UsableCas(DropStale(s)) == UsableCas(s)
    ensures LiveIds(DropStale(s)) == UsableIds(s) && LiveCas(DropStale(s)) == UsableCas(s)
  {
    EnqueueKeepsAll(s.cleanup, IdentityJob(s.pending.value));
    assert ValidIdentifier(s.pending.value.requestId);
  }

  lemma SelectionCasSplit(selections: seq<Selection>, i: nat)
    requires i < |selections|
    ensures SelectionCas(selections) == SelectionCas(Remove(selections, i)) + Ders(selections[i].profile.cas)
  {
  }

  lemma DistinctAfterRemove(selections: seq<Selection>, i: nat)
    requires i < |selections| && DistinctProfiles(selections)
    ensures DistinctProfiles(Remove(selections, i))
    ensures WiredApart(selections) ==> WiredApart(Remove(selections, i))
    ensures forall x :: x in Remove(selections, i) ==> x in selections && x.profile.id != selections[i].profile.id
  {
  }

  lemma DetachSound(s: State, i: nat, l: Ledger)
    requires Sound(s, l) && DrawnIdsValid(l) && i < |s.selections|
    ensures Sound(Detach(s, i), l)
  {
    var job := DetachJob(s.selections[i]);
    var queue := Enqueue(s.cleanup, job);
    EnqueueKeepsAll(s.cleanup, job);
    SelectionCasSplit(s.selections, i);
    DistinctAfterRemove(s.selections, i);
    assert forall id :: id in l.issued ==> id != "";
    if Remove(s.selections, i) == [] {
      if s.active.Some? {
        EnqueueKeepsAll(queue, IdentityJob(s.active.value));
      }
      if s.pending.Some? {
        EnqueueKeepsAll(EnqueueIdentity(queue, s.active), IdentityJob(s.pending.value));
      }
    }
  }

  lemma ActivatedSound(s: State, at: Time, l: Ledger)
    requires Sound(s, l) && DrawnIdsValid(l) && s.pending.Some? && s.pending.value.certificate.Some?
               && !s.pending.value.stale
    ensures Sound(Activated(s, at), l)
  {
    if s.active.Some? {
      EnqueueKeepsAll(s.cleanup, IdentityJob(s.active.value));
      assert ValidIdentifier(s.active.value.requestId);
    }
  }

  /** The remembered identity an export replaces, if it is a new one. */
  function WithPrior(x: Selection): seq<PriorIdentity> {
    var prior := PriorIdentity(x.fingerprint, x.identitySha256);
    if prior.fingerprint != "" && prior !in x.priors then x.priors + [prior] else x.priors
  }

  /** A selection is staged again: its old export is queued, its old identity remembered. */
  function StagedState(
    s: State, i: nat, requestId: string, fingerprint: string, artifact: Artifact, identitySha256: string): State
    requires i < |s.selections|
  {
    var x := s.selections[i];
    var staged := Selection(x.profile, x.adapter, fingerprint, identitySha256, WithPrior(x), requestId, artifact);
    s.(selections := s.selections[i := staged],
       cleanup := if x.artifact.path != "" then Enqueue(s.cleanup, ArtifactJob(x.artifact)) else s.cleanup)
  }

  lemma LiveIdsNamed(s: State, l: Ledger)
    requires Sound(s, l) && DrawnIdsValid(l)
    ensures "" !in LiveIds(s)
  {
    assert forall id :: id in LiveIds(s) ==> ValidIdentifier(id);
  }

  /** Changing selections but not their profiles, and adding jobs without IDs or CAs, keeps a state sound. */
  lemma RestagingSound(s: State, t: State, l: Ledger)
    requires Sound(s, l)
    requires t.epoch == s.epoch && t.active == s.active && t.pending == s.pending
    requires |t.selections| == |s.selections|
    requires forall k :: 0 <= k < |s.selections| ==>
               t.selections[k].profile == s.selections[k].profile && t.selections[k].adapter == s.selections[k].adapter
    requires forall x :: x in t.selections ==> SelectionShape(x, l)
    requires JobIds(s.cleanup) <= JobIds(t.cleanup) <= JobIds(s.cleanup) + {""}
    requires JobCas(t.cleanup) == JobCas(s.cleanup)
    requires "" !in LiveIds(s)
    ensures Sound(t, l)
    ensures LiveIds(t) == LiveIds(s) && UsableCas(t) == UsableCas(s)
  {
    SameCas(s.selections, t.selections);
    assert Shape(t, l) by {
      hide SelectionShape;
    }
  }

  lemma SameCas(xs: seq<Selection>, ys: seq<Selection>)
    requires |xs| == |ys| && forall k :: 0 <= k < |xs| ==> ys[k].profile == xs[k].profile
    ensures SelectionCas(xs) == SelectionCas(ys)
  {
  }

  /** Installing CAs in use creates nothing that is not held. */
  lemma StagingKeepsSound(s: State, cas: set<nat>, l: Ledger)
    requires Sound(s, l) && cas <= UsableCas(s)
    ensures Sound(s, l.(staged := l.staged + cas)) && UsableIds(s) <= l.issued
  {
  }

  lemma StagedSound(
    s: State, i: nat, requestId: string, fingerprint: string, artifact: Artifact, identitySha256: string, l: Ledger)
    requires Sound(s, l) && DrawnIdsValid(l) && i < |s.selections|
    requires requestId in l.issued && ValidHash(fingerprint) && |WithPrior(s.selections[i])| <= 16
    ensures Sound(StagedState(s, i, requestId, fingerprint, artifact, identitySha256), l)
  {
    hide Conserved, IdsApart;
    var t := StagedState(s, i, requestId, fingerprint, artifact, identitySha256);
    var x := s.selections[i];
    EnqueueKeepsAll(s.cleanup, ArtifactJob(x.artifact));
    assert SelectionShape(x, l);
    forall y | y in t.selections
      ensures SelectionShape(y, l)
    {
      var k :| 0 <= k < |t.selections| && t.selections[k] == y;
      if k != i {
        assert y == s.selections[k];
      }
    }
    LiveIdsNamed(s, l);
    RestagingSound(s, t, l);
  }

  lemma DetachedSelections(s: State, i: nat)
    requires i < |s.selections|
    ensures Detach(s, i).selections == Remove(s.selections, i) && Detach(s, i).epoch == s.epoch
  {
  }

  lemma DetachedWellFormed(s: State, i: nat)
    requires i < |s.selections|
    ensures NativeValuesWellFormed(s) ==> NativeValuesWellFormed(Detach(s, i))
  {
    assert Detach(s, i).selections == Remove(s.selections, i);
  }

  lemma StagedWellFormed(
    s: State, i: nat, requestId: string, fingerprint: string, artifact: Artifact, identitySha256: string)
    requires i < |s.selections| && ValidIdentitySha(identitySha256)
    ensures NativeValuesWellFormed(s) ==>
              NativeValuesWellFormed(StagedState(s, i, requestId, fingerprint, artifact, identitySha256))
  {
    assert s.selections[i] in s.selections;
  }

  /** What a removal must take away: the identity the profile carries, and the earlier ones. */
  function KnownIdentities(x: Selection): set<PriorIdentity> {
    (set p | p in x.priors) + if x.fingerprint != "" then {PriorIdentity(x.fingerprint, x.identitySha256)} else {}
  }

  /** Staging again forgets no identity of the profile. */
  lemma StagedKeepsIdentities(
    s: State, i: nat, requestId: string, fingerprint: string, artifact: Artifact, identitySha256: string)
    requires i < |s.selections|
    ensures var t := StagedState(s, i, requestId, fingerprint, artifact, identitySha256);
            KnownIdentities(s.selections[i]) <= KnownIdentities(t.selections[i])
  {
  }

  lemma EpochSound(s: State, epoch: int, l: Ledger)
    requires Sound(s, l) && epoch >= s.epoch
    ensures Sound(s.(epoch := epoch), l)
  {
  }

  lemma NewPendingSound(s: State, id: string, l: Ledger)
    requires Sound(s, l) && DrawnIdsValid(l) && s.pending.None? && s.selections != []
    requires ValidIdentifier(id) && id !in l.issued
    ensures Sound(s.(pending := Some(Identity(id, "", None, false, 0))), l.(issued := l.issued + {id}))
  {
  }

  /** The pending identity gains a request, a certificate or the stale mark. */
  lemma PendingUpdatedSound(s: State, p: Identity, l: Ledger)
    requires Sound(s, l) && s.pending.Some? && p.requestId == s.pending.value.requestId
    requires s.pending.value.stale ==> p.stale
    requires p.certificate == s.pending.value.certificate || s.pending.value.certificate.None?
    requires IdentityShape(Some(p))
    ensures Sound(s.(pending := Some(p)), l)
  {
  }

  // --- running the queue ---

  function Without(cas: seq<CaCertificate>, retained: set<nat>): (r: seq<CaCertificate>)
    ensures Ders(r) == Ders(cas) - retained
  {
    if cas == [] then []
    else
      var rest := Without(cas[1..], retained);
      DersJoin(cas[0], cas[1..]);
      DersJoin(cas[0], rest);
      assert cas == [cas[0]] + cas[1..];
      if cas[0].der in retained then rest else [cas[0]] + rest
  }

  lemma DersJoin(first: CaCertificate, rest: seq<CaCertificate>)
    ensures Ders([first] + rest) == {first.der} + Ders(rest)
  {
  }

  /** The ledger after a cleanup call: what it names is spoiled, and cleaned if the call succeeded. */
  ghost function CleanedLedger(l: Ledger, job: Job, ok: bool): Ledger {
    var named := if job.requestId == "" then {} else {job.requestId};
    l.(destroyed := l.destroyed + named,
       cleanedIds := l.cleanedIds + if ok then named else {},
       cleanedCas := l.cleanedCas + (if ok then Ders(job.cas) else {}),
       cleanedExports := l.cleanedExports + if ok then (set a | a in job.artifacts) else {})
  }

  /** Detaching, staging, activating and dropping a stale identity forget no export. */
  lemma DetachKeepsExports(before: State, s: State, i: nat, l: Ledger)
    requires i < |s.selections| && ExportsKept(before, s, l)
    ensures ExportsKept(before, Detach(s, i), l)
  {
    var x, job := s.selections[i], DetachJob(s.selections[i]);
    var queue, rest := Enqueue(s.cleanup, job), Remove(s.selections, i);
    EnqueueKeepsExports(s.cleanup, job);
    forall y | y in s.selections && y != x
      ensures y in rest
    {
      var k :| 0 <= k < |s.selections| && s.selections[k] == y;
      assert rest[if k < i then k else k - 1] == y;
    }
    EnqueueIdentityKeepsExports(queue, s.active);
    EnqueueIdentityKeepsExports(EnqueueIdentity(queue, s.active), s.pending);
  }

  lemma EnqueueIdentityKeepsExports(queue: seq<Job>, identity: Option<Identity>)
    ensures JobExports(EnqueueIdentity(queue, identity)) == JobExports(queue)
  {
    if identity.Some? {
      EnqueueKeepsExports(queue, IdentityJob(identity.value));
    }
  }

  lemma StagedKeepsExports(
    before: State, s: State, i: nat, requestId: string, fingerprint: string, artifact: Artifact, identitySha256: string,
    l: Ledger)
    requires i < |s.selections| && ExportsKept(before, s, l)
    ensures ExportsKept(before, StagedState(s, i, requestId, fingerprint, artifact, identitySha256), l)
  {
    var t := StagedState(s, i, requestId, fingerprint, artifact, identitySha256);
    EnqueueKeepsExports(s.cleanup, ArtifactJob(s.selections[i].artifact));
    forall y | y in s.selections && y != s.selections[i]
      ensures y in t.selections
    {
      var k :| 0 <= k < |s.selections| && s.selections[k] == y;
      assert t.selections[k] == y;
    }
  }

  lemma ActivatedKeepsExports(before: State, s: State, at: Time, l: Ledger)
    requires s.pending.Some? && s.pending.value.certificate.Some? && ExportsKept(before, s, l)
    ensures ExportsKept(before, Activated(s, at), l)
  {
    EnqueueIdentityKeepsExports(s.cleanup, s.active);
  }

  lemma DropStaleKeepsExports(before: State, s: State, l: Ledger)
    requires s.pending.Some? && ExportsKept(before, s, l)
    ensures ExportsKept(before, DropStale(s), l)
  {
    EnqueueKeepsExports(s.cleanup, IdentityJob(s.pending.value));
  }

  /** A job that ran successfully may be forgotten. */
  lemma RanJobKeepsExports(before: State, s: State, i: nat, job: Job, l: Ledger)
    requires i < |s.cleanup| && job.artifacts == s.cleanup[i].artifacts && ExportsKept(before, s, l)
    ensures ExportsKept(before, s.(cleanup := Remove(s.cleanup, i)), CleanedLedger(l, job, true))
    ensures ExportsKept(before, s, CleanedLedger(l, job, false))
  {
    var rest := Remove(s.cleanup, i);
    forall j | j in s.cleanup && j != s.cleanup[i]
      ensures j in rest
    {
      var k :| 0 <= k < |s.cleanup| && s.cleanup[k] == j;
      assert rest[if k < i then k else k - 1] == j;
    }
  }

  /** A cleanup call spoils nothing a sound state uses. */
  lemma CleanupKeepsSound(s: State, job: Job, ok: bool, l: Ledger)
    requires Sound(s, l) && job.requestId !in UsableIds(s)
    ensures Sound(s, CleanedLedger(l, job, ok))
  {
  }

  /** After a job ran without the CAs still in use, it can be forgotten. */
  lemma RanJobSound(s: State, i: nat, l: Ledger)
    requires Sound(s, l) && DrawnIdsValid(l) && i < |s.cleanup|
    ensures var job := s.cleanup[i].(cas := Without(s.cleanup[i].cas, LiveCas(s)));
            Sound(s.(cleanup := Remove(s.cleanup, i)), CleanedLedger(l, job, true))
  {
    var rest := Remove(s.cleanup, i);
    var job := s.cleanup[i].(cas := Without(s.cleanup[i].cas, LiveCas(s)));
    var t, after := s.(cleanup := rest), CleanedLedger(l, job, true);
    forall j | j in s.cleanup
      ensures j == s.cleanup[i] || j in rest
    {
      var k :| 0 <= k < |s.cleanup| && s.cleanup[k] == j;
      if k != i {
        assert rest[if k < i then k else k - 1] == j;
      }
    }
    assert JobIds(rest) <= JobIds(s.cleanup) <= JobIds(rest) + {job.requestId};
    assert JobCas(s.cleanup) <= JobCas(rest) + Ders(s.cleanup[i].cas);
    assert Ders(s.cleanup[i].cas) <= Ders(job.cas) + LiveCas(s);
    assert Shape(t, after);
    assert IdsApart(t, after);
    assert Conserved(t, after);
  }
}
