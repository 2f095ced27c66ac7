# Models and proofs of the Soha endpoint

The Soha desktop application and its endpoint service decide what a device may reach, install network
identities, restrict printers, and talk to a control plane, on machines where any call can fail and the process
can stop at any moment. This project models the parts where that matters most and proves, for all inputs and all
runs, what they keep. `dafny verify dfyconfig.toml` checks it.

Two ideas recur. The service acts only on what it can prove it owns; and nothing it has committed to regresses
across a failed write or a crash.

| Files | What they model |
|---|---|
| `Prefixes`, `Protocol`, `Firewall`, `TunnelPlans` | Network prefixes as aligned blocks (section 3.1 of RFC 4632, section 2.3 of RFC 4291); which configurations become a tunnel plan, and what its rules and routes let through |
| `Executors` | Applying a plan to a system that may fail or half-apply, with readback and rollback |
| `EapState`, `EapWorld`, `EapManager`, `EapRuns` | The network identity manager with its cleanup queue, and whole runs of it |
| `EapXmlReader`, `EapXmlMatch` | The Windows profile reader, canonical forms, matching and the baseline verdict |
| `EapPlist`, `EapPlistStreams` | The property-list writer and its budgeted reader |
| `AssistantFrames` | The assistant's event stream, cut into frames as it arrives |
| `RestoreProtocol`, `PrinterAcls`, `WiredLan` | Replacing an operating-system setting and putting it back: printer access lists and the wired profile |
| `ConfigurationFloor`, `ChannelFloor` | The two version floors |
| `EapExports` | Exported identity files on macOS and their receipts |
| `Sessions` | Servers, stored refresh tokens, and responses in flight |
| `ProxyTelemetry` | Turning counters into reported windows |
| `Sequences`, `Sorting`, `Wrappers` | Lists, byte order and sorting, results |

## How the outside is modelled

- Native calls, saves, keyrings and the control plane are adversaries: a call answers with any value its interface
  allows and may fail. Clocks give any value at every reading; random request IDs and file names are parameters
  that have not occurred before.
- A process may stop between any two calls to the outside. Where durable state is concerned, the outside is a class
  (`EapWorld.World`, `RestoreProtocol.World`, `EapExports.World`, `FloorFile`, `Files`) whose methods all require
  and keep its invariant `Safe`; so `Safe` holds at every crash point, and a start relies on nothing more.
- A state file is written to a temporary file and renamed: a failed save leaves the old file. The receipts of
  exported files also sync their directory, and there a failed save may leave the new receipt.
- Other programs act between the service's calls in `RestoreProtocol` and `EapExports`: they may change, remove and
  add settings and files, and bring printers in and out of reach. The recheck of a setting and its write are one
  step, as are the last check of a file and its removal; Windows and the file system offer nothing atomic here. The
  wired profile has no second check before its write; its readback and write are one step in the same sense.
- An outside can be told to leave the service alone, to be reliable, or to follow a script (`alone`, `reliable`,
  `Scripted`, `obeys`). Theorems about all runs do not use this; the exact conditions and the example runs do, because
  only an undisturbed call can be said to succeed.
- Locks make the session handlers' critical sections atomic, so a sequence of method calls is an interleaving. A
  check outside the lock that the section repeats adds no behaviour.
- Hashes are told apart if their inputs differ; encodings lose nothing. Text formats (prefixes, keys, hosts,
  numbers, base64) are records of functions with the laws that are used.

## Findings

Where a property fails, the code is modelled as it is, a run or a lemma shows the failure and the exact condition is
proved for all inputs.

| What fails | Shown by | Exactly when |
|---|---|---|
| A malformed frame discards the events parsed together with it, so what the assistant delivers can depend on how the network cut the stream | `AssistantFrames.ChunkingCanMatter` | `AssistantFrames.ChunkingExactly` |
| Restoring does not know who placed a restriction: one that an administrator set to exactly the recorded managed value is removed | `PrinterAcls.OutsideRestrictionIsReplaced`, `WiredLan.OutsideProfileIsReplaced` | `PrinterAcls.ForeignValueReplacedExactly`, `WiredLan.ForeignProfileReplacedExactly` |
| Restoring a printer that is out of the inventory drops its entry; when the printer returns restricted, it stays so | `PrinterAcls.AbsentPrinterStaysRestricted` | `PrinterAcls.RestrictionLeftExactly` |
| A printer journal can be saved with more than 256 entries but not loaded | `PrinterAcls.PrintersOneByOne` | `PrinterAcls.LoadableExactly` |
| A pending cleanup with an invalid identifier or more than 768 leases is saved, and refused at the next start. More leases than that arrive only by a renewal or a configuration (`manager.go:707-714`, `676`) | `ConfigurationFloor.ManyLeasesLockOut` | `ConfigurationFloor.BegunIsValidExactly` |
| A channel policy of version 0, if the validity check passes it, is accepted and refused at the next start | `ChannelFloor.VersionZeroLocksOut` | `ChannelFloor.LoadsExactly` |
| Without a configuration path a restart forgets the floor. The service always sets a path (`cmd/soha-app-service/runtime.go:127`) | `ConfigurationFloor.WithoutPathARestartForgets` | `ConfigurationFloor.RestartForgetsExactly` |
| Without a recorder of the first acceptance, the loss of the floor file lets an older channel policy back in. The only channel system of the repository, on Windows, records it (`channels_windows.go:115`, `channels_other.go:5-6`) | `ChannelFloor.WithoutRecorderLossForgets` | `ChannelFloor.RestartForgetsExactly` |
| A crash between creating an export file and its second receipt leaves a file on which every recovery fails until it is removed by hand | `EapExports.UnidentifiedFileIsKept` | `EapExports.DarwinExports.RecoverArtifacts` |
| The identity manager commits native values unchecked and may refuse them at the next start, with a native system that answers beyond the bounds. The two of the repository stay within them (requests: `eap_helper_windows.go:64`, `eap_darwin_identity.go:115-137`; an unnamed adapter cannot be selected: `eap_ipc.go:30`), and no start is refused then | `EapRuns.OverlongRequestLocksOut` | on the answers: `EapRuns.Run`; on the state: `EapState.RestartExactly` |
| The outcome of a refresh for another token than the stored one is acted on if the request had no token, as all have that are sent while blocked, or if the keyring cannot be read: a late rejection ends a new session, a late success replaces its token | `Sessions.LateRejectionEndsSession`, `Sessions.UnreadableRejectionEndsSession`, `Sessions.UnreadableRefreshReplaces` | `Sessions.AppHost.ModifyProxyResponse` |
| If the keyring fails to set a token and to delete the old one, the old token stays in use | `Sessions.OldTokenStaysInUse` | `Sessions.AnotherTokenRemainsExactly` |
| A block that could not be saved lasts only until the next start | `Sessions.RestartForgetsBlock` | `Sessions.AppHost.Restart` |
| Rolling back re-applies the remembered plan even if its leases have expired meanwhile | `Executors.RollsBackPastExpiry` | `Executors.Executor.Apply` with `TunnelPlans.StillAcceptableExactly` |

## Model

| member | source | states |
|---|---|---|
| Prefixes.NestedOrDisjoint | internal/endpointservice/executor.go:252-261 | Two masked blocks of one address space are nested or have no address in common. |
| Prefixes.CoversIsInclusion | internal/endpointservice/executor.go:384-392 | The length-and-first-address test holds exactly if every address of one block lies in the other. |
| Prefixes.OverlapTest | internal/endpointservice/executor.go:252-261 | Testing each block's first address against the other block finds an overlap exactly if some address is shared. |
| Prefixes.SameBlock | internal/endpointservice/executor.go:233-263 | Two masked prefixes with the same addresses are the same prefix. |
| Prefixes.Sandwich | internal/endpointservice/executor.go:265-294 | A block inside a rule's destination, itself inside a route that is that block or disjoint from it, is exactly the destination. |
| Firewall.ReadLeases | internal/endpointservice/executor.go:304-319 | Leases are readable exactly if all are live with valid IDs and each resource lease's ID is new; then the table is the one where a later network lease replaces an earlier one. |
| Firewall.LeaseTableSound | internal/endpointservice/executor.go:304-319 | Each table entry has the kind and expiry of a lease of that ID. |
| Firewall.LeaseTableKeys | internal/endpointservice/executor.go:304-319 | The table has exactly the IDs of the leases. |
| Firewall.ValidPorts | internal/endpointservice/executor.go:337-349 | Accepts exactly at most 64 distinct ports between 1 and 65535. |
| Firewall.ValidRuleShape | internal/endpointservice/executor.go:323-349 | Accepts a rule exactly if its shape is allowed: own source, known effect and protocol, masked non-default destination inside a route, ports as required. |
| Firewall.NextPhase | internal/endpointservice/executor.go:350-371 | One step of the three-phase scan passes exactly for an authorised rule whose layer is not before the current one, and moves to that layer. |
| Firewall.ScanRules | internal/endpointservice/executor.go:320-373 | The one-pass scan accepts exactly the lists whose rules all have an allowed shape and authority, distinct IDs, and come in the layers resource allow, deny, network allow. |
| Firewall.ValidFirewallRules | internal/endpointservice/executor.go:296-373 | Accepts exactly the acceptable lists under usable leases, at most 4096 rules. |
| Firewall.LayeredMeaning | internal/endpointservice/executor.go:321-371 | For any layered list, first match with default deny equals the order-free reading. |
| Firewall.FirstMatchIsOrderFree | internal/endpointservice/executor.go:296-373 | For every accepted list, packet and time: allowed by first match exactly if a resource rule matches, or no deny and some network rule matches. |
| Firewall.ProtectedDenyHolds | internal/endpointservice/executor.go:350-371 | A packet covered by a deny rule passes only under an allow rule whose resource lease is still live; never through a network lease. |
| Firewall.AllowRestsOnLease | internal/endpointservice/executor.go:323-371 | Every allowed packet comes from an own address and goes inside a route, under an unexpired allow rule of a lease that lives at least as long as the rule; under a resource lease with a protocol, to a listed port. |
| TunnelPlans.CanonicalPrefixes | internal/endpointservice/executor.go:233-263 | Accepts exactly the lists of distinct, pairwise disjoint canonical split prefixes and returns them sorted. |
| Sorting.AtMostExactly | internal/endpointservice/executor.go:249-249 | The order of the lists: a prefix comes first, else the smaller character at the first difference. |
| TunnelPlans.NoOverlap | internal/endpointservice/executor.go:252-261 | The quadratic test accepts exactly if no address lies in two blocks. |
| TunnelPlans.RouteCoveredByLeases | internal/endpointservice/executor.go:267-292 | A route is covered exactly if it lies wholly in a usable CIDR of a live network lease or in the destination of an allow rule with a live resource lease. |
| TunnelPlans.RoutesCoveredByLeases | internal/endpointservice/executor.go:265-294 | All routes are covered and there is at least one lease, exactly. |
| TunnelPlans.ReadDnsServers | internal/endpointservice/executor.go:213-225 | Accepts exactly distinct, canonical, global-unicast servers inside the routes, with or without a zone. |
| TunnelPlans.BuildTunnelPlan | internal/endpointservice/executor.go:191-231 | Builds a plan exactly for the acceptable configurations. It holds the endpoint's own key, as its only peer the gateway, whose key is another one, with its endpoint and keepalive, the configuration's MTU between 1280 and 1500, and the configuration's addresses, routes and name servers, each list sorted. |
| TunnelPlans.ResourceRouteIsDestination | internal/endpointservice/executor.go:280-288 | In an accepted configuration a route covered by a resource rule is exactly the rule's destination block. |
| TunnelPlans.AcceptedRoutes | internal/endpointservice/executor.go:191-294 | In every accepted plan routes are canonical, never the default, pairwise disjoint, and the peer's allowed addresses; each lies inside a masked CIDR of a live network lease or is exactly the destination of an allow rule with a live resource lease. The own addresses are single hosts. |
| TunnelPlans.UnauthorizedAddressUnreachable | internal/endpointservice/executor.go:191-294 | An address in no masked CIDR of a live network lease and in no destination of a live resource rule is in no route, is no name server, and is reached by no packet the rules allow. |
| TunnelPlans.StillAcceptableExactly | internal/endpointservice/executor.go:191-373 | A configuration once acceptable is acceptable at another moment exactly if it, all its leases and all its allow rules outlive that moment. |
| Firewall.StillAcceptableExactly | internal/endpointservice/executor.go:296-373 | The same for the rules and leases alone. |
| Executors.VerifiedUnique | internal/endpointservice/executor.go:131-139 | A call log shows at most one plan in force. |
| Executors.Executor.Apply | internal/endpointservice/executor.go:118-140 | Over a system that may fail or half-apply: the calls, the outcome and the remembered plan of each way an apply can go; an unsafe configuration makes no call; the remembered plan is always the last one applied and read back. A plan rolled back to is that of a configuration accepted earlier, and is still acceptable exactly if that configuration, its leases and allow rules outlive the rollback. |
| Executors.Executor.Attempt | internal/endpointservice/executor.go:131-137 | One native apply and readback; success means the plan was read back right after. |
| Executors.Executor.Recover | internal/endpointservice/executor.go:176-189 | After a failed apply: the remembered plan is applied and read back (rolled back), or everything is disabled and forgotten. |
| Executors.RollsBackPastExpiry | internal/endpointservice/executor.go:176-189 | A run in which the plan of an expired lease is put back in force. |
| Executors.ObedientRun | internal/endpointservice/executor.go:118-140 | On a system that refuses exactly some plans and otherwise obeys, an apply succeeds, rolls back or ends disabled exactly by whether the plan and the remembered one are refused. |
| Executors.Executor.Verify | internal/endpointservice/executor.go:142-158 | Reports applied exactly if one readback equals the configuration's plan, and mutates nothing. |
| Executors.Executor.Disable | internal/endpointservice/executor.go:160-174 | Forgets the plan; succeeds exactly if the native call did and nothing was left. |
| Executors.Executor.VpnBinding | internal/endpointservice/executor.go:82-102 | An interface is named only while the remembered plan was just read back, and only by 1 to 64 letters, digits, dashes or underscores. |
| EapState.EnqueueKeepsAll | internal/endpointservice/eap_cleanup.go:30-58 | Adding a job to the queue adds exactly its request ID, its CAs and its certificate's issuer, and forgets none. |
| EapState.MergeKeepsAll | internal/endpointservice/eap_cleanup.go:37-57 | Merging into the job of the same request ID loses no ID and no CA. |
| EapState.EnqueueKeepsExports | internal/endpointservice/eap_cleanup.go:30-58 | Adding a job to the queue adds exactly its exported files, forgets none, and keeps a certificate it carries. |
| EapState.DetachKeepsExports | internal/endpointservice/eap_cleanup.go:60-76 | Detaching a selection forgets no exported file. |
| EapState.StagedKeepsExports | internal/endpointservice/eap_manager.go:319-335 | Staging again forgets no exported file: the old one is queued. |
| EapState.StagedKeepsIdentities | internal/endpointservice/eap_manager.go:313-331 | Staging again forgets no identity of the profile: the earlier one is remembered. |
| EapState.RanJobKeepsExports | internal/endpointservice/eap_cleanup.go:90-104 | A job may be forgotten after it ran, its files then being cleaned. |
| EapState.RestartExactly | internal/endpointservice/eap_manager.go:110-145 | A committed state is accepted at the next start exactly if every adapter, request and identity hash in it, which all came from the native system, has the form the start expects. |
| EapState.DropStaleSound | internal/endpointservice/eap_manager.go:251-254 | Moving a stale pending identity to the queue keeps every created ID and CA held, queued or cleaned, and uses nothing destroyed. |
| EapState.DetachSound | internal/endpointservice/eap_cleanup.go:60-76 | Detaching a selection, with the last one the identities, keeps the same. |
| EapState.ActivatedSound | internal/endpointservice/eap_manager.go:418-423 | Activation keeps the same; the replaced identity is queued. |
| EapState.StagedSound | internal/endpointservice/eap_manager.go:319-335 | Staging again keeps the same; the old export is queued and at most 16 earlier identities are kept. |
| EapState.RanJobSound | internal/endpointservice/eap_cleanup.go:90-104 | A job that ran without the retained CAs can be forgotten: what it named is cleaned or still in use. |
| EapWorld.World.WriteFile | internal/endpointservice/eap_manager.go:510-547 | Only a sound state is committed, never one of a lower epoch than the file's, nor one that forgets an exported file before it was cleaned; a failed write leaves the file. |
| EapWorld.World.CreateCsr | internal/endpointservice/eap_manager.go:267-277 | A key is created only for the pending identity that the committed state already holds. |
| EapWorld.World.IssueCertificate | internal/endpointservice/eap_manager.go:278-279 | A certificate is asked for only with the committed request of the pending identity. |
| EapWorld.World.CertificateValid | internal/endpointservice/eap_manager.go:288-293 | Every certificate stored, in memory or on disk, passed the checks against its own identity's request. |
| EapWorld.World.Stage | internal/endpointservice/eap_manager.go:319-322 | Only a selected profile is staged, on its adapter, with the usable identity, its certificate and CAs the committed state already holds. |
| EapWorld.World.Cleanup | internal/endpointservice/eap_cleanup.go:90-98 | A cleanup call names no ID and no CA live in memory, and none in use on disk. |
| EapRuns.Run | internal/endpointservice/eap_manager.go:110-448 | Over every run of public calls and restarts, from any safe world and whatever fails: each key requested and each CA staged is held by an identity or selection, queued, or was cleaned, and so is each exported file the state file ever referred to; no ID ever named in a cleanup is in use, and the committed restriction epoch never decreases; with a native system whose answers keep the bounds of the repository's two, no start is ever refused, and with any other only for ill-formed native values. |
| EapRuns.TakeStep | internal/endpointservice/eap_manager.go:147-448 | One public call, whatever fails in it, keeps the invariant those claims rest on, does not lower the committed epoch, and draws at most its own random ID. |
| EapRuns.OverlongRequestLocksOut | internal/endpointservice/eap_manager.go:268-277 | A certificate request of more than 4096 characters is committed as it came, and the state is refused at the next start. |
| EapManager.MirrorsUsable | internal/endpointservice/eap_manager.go:250-256 | Memory is the committed state, or differs only by a stale pending identity moved to the queue; both use the same IDs and CAs. |
| EapManager.JobIsDead | internal/endpointservice/eap_cleanup.go:78-98 | A queued job without the retained CAs names nothing live in memory and nothing in use on disk. |
| EapManager.DroppedIsQueued | internal/endpointservice/eap_manager.go:251-254 | With an empty queue memory equals the committed state. |
| EapManager.AdmissionManager.constructor | internal/endpointservice/eap_manager.go:110-145 | A start from an accepted file restores exactly the committed state. |
| EapManager.AdmissionManager.Save | internal/endpointservice/eap_manager.go:510-547 | Commits memory, or restores the last committed state and withdraws authorisation. |
| EapManager.AdmissionManager.QueueCleanup | internal/endpointservice/eap_cleanup.go:30-58 | The loop over the queue computes the merged queue. |
| EapManager.AdmissionManager.DetachSelection | internal/endpointservice/eap_cleanup.go:60-76 | Removes the selection and queues its CAs and export, with the last one both identities. |
| EapManager.AdmissionManager.Observe | internal/endpointservice/eap_manager.go:147-170 | Takes a configuration of at most 64 valid profiles with distinct IDs and one subject, or withdraws authorisation; the restriction epoch never decreases in memory or on disk. |
| EapManager.AdmissionManager.EnsureIdentity | internal/endpointservice/eap_manager.go:250-295 | Success leaves a certified identity that is not stale; if nothing is pending, the active one was found at a reading of the clock in this call to live for more than an hour and to be the one that the configuration names. The invariants hold through every failed call, failed save and crash point. |
| EapManager.AdmissionManager.DrawPending | internal/endpointservice/eap_manager.go:258-266 | A new pending identity is committed before anything is created for it, and only while the queue has room. |
| EapManager.AdmissionManager.Stage | internal/endpointservice/eap_manager.go:297-337 | Success leaves every selection with the target identity's certificate, committed, all found authorized, unchanged and unexpired at readings of the clock in this call; and forgets no identity of a profile. |
| EapManager.AdmissionManager.RunCleanup | internal/endpointservice/eap_cleanup.go:78-105 | The reverse loop empties the queue or stops with every unfinished job still queued. |
| EapManager.AdmissionManager.RunJob | internal/endpointservice/eap_cleanup.go:90-104 | One job: run without the retained CAs, forgotten only after success and a save. |
| EapManager.AdmissionManager.RecoverArtifacts | internal/endpointservice/eap_cleanup.go:107-121 | The native system is told to keep exactly the exports that selections on disk refer to; nothing else changes. |
| EapManager.Retained | internal/endpointservice/eap_cleanup.go:107-113 | Collects exactly the exports that selections refer to. |
| EapManager.AdmissionManager.Prepare | internal/endpointservice/eap_manager.go:211-248 | Success means the profile is selected on that adapter and carries the ready identity, and memory is committed; all selections were found authorized and the certificate unexpired in this call. |
| EapManager.AdmissionManager.Select | internal/endpointservice/eap_manager.go:220-245 | An authorized profile is selected on an enabled adapter of its medium, or was already on that adapter; a wired profile never joins an adapter that carries another. |
| EapManager.AdmissionManager.Renew | internal/endpointservice/eap_manager.go:364-374 | Success without a pending identity means that the active one serves at a reading of the clock in this call. |
| EapManager.AdmissionManager.RemoveProfile | internal/endpointservice/eap_manager.go:431-448 | Success leaves the state without the selection and with an empty queue, committed. |
| EapManager.AdmissionManager.Check | internal/endpointservice/eap_manager.go:339-429 | A pass without a diagnostic leaves nothing pending or queued, and every selection with the active certificate, committed. In this pass the native system answered for each selection that it is installed with that certificate, a reading of the clock found it unexpired, the active identity was found to serve or was activated, and exports were recovered. |
| EapManager.AdmissionManager.AllInstalled | internal/endpointservice/eap_manager.go:380-385 | Installed exactly if every selection carries the certificate and the native system says so of each, in this call. |
| EapWorld.World.ActivateCertificate | internal/endpointservice/eap_manager.go:404-409 | A certificate is reported as installed only after every selection on disk was read back with it. |
| EapManager.AdmissionManager.RemoveOutdated | internal/endpointservice/eap_manager.go:344-357 | Success leaves exactly selections that were up to date at a reading of the clock in this call, and removed only ones that at one were not; the invariants hold throughout. |
| EapManager.AdmissionManager.ConfirmInstalled | internal/endpointservice/eap_manager.go:386-403 | Installed selections keep neither earlier identities nor exports, and stay as read back otherwise; the exports are queued. |
| EapManager.AdmissionManager.ActivatePending | internal/endpointservice/eap_manager.go:404-427 | The pending identity becomes active, at a reading of the clock, only on a matching receipt and a save, and the old one is queued; one that the control plane calls stale is marked so. |
| EapXmlReader.ParseXml | internal/endpointservice/eap_windows_profile.go:49-103 | The loop over tokens with a stack, a root and a counter computes the stack machine's result. |
| EapXmlReader.RunItems | internal/endpointservice/eap_windows_profile.go:60-98 | Inside an element the machine reads a list of items exactly if they are proper and fit the depth and node limits, and then appends exactly their text and trees. |
| EapXmlReader.RunRoot | internal/endpointservice/eap_windows_profile.go:60-98 | Reading one root element gives its tree exactly within 32 levels and 4096 nodes, without mixed content or repeated fields. |
| EapXmlReader.RunDocument | internal/endpointservice/eap_windows_profile.go:49-103 | For every well-nested document: the acceptable root's tree, or refusal, or nothing read. |
| EapXmlReader.ReaderRefinesTree | internal/endpointservice/eap_windows_profile.go:49-103 | The reader accepts exactly the documents with one acceptable root amid space and comments, and returns exactly that tree with trimmed text. |
| EapXmlMatch.NormalizeDecidesReordering | internal/endpointservice/eap_windows_profile.go:110-129 | Two trees have equal normal forms exactly if one is the other with siblings reordered at every level and hexadecimal fields folded. |
| EapXmlMatch.CanonicalDecidesReordering | internal/endpointservice/eap_windows_profile.go:105-129 | The same for the canonical text. |
| EapXmlMatch.NormalizeIdempotent | internal/endpointservice/eap_windows_profile.go:110-129 | Normalising twice is normalising once. |
| EapXmlMatch.ReorderingIsEquivalence | internal/endpointservice/eap_windows_profile.go:105-129 | Reordering is reflexive, symmetric and transitive, and relates a tree to its normal form. |
| EapXmlMatch.ParsedUnique | internal/endpointservice/eap_windows_profile.go:90-97 | Every parsed profile has distinct sibling names but for TrustedRootCA. |
| EapXmlMatch.MatchingIsReordering | internal/endpointservice/eap_windows_profile.go:131-144 | Matching holds exactly if both profiles parse and one is a reordering of the other. |
| EapXmlMatch.MatchingKeepsVerdict | internal/endpointservice/eap_windows_profile.go:131-161 | Matching profiles get the same baseline verdict. |
| EapXmlMatch.VerdictOnNormalForm | internal/endpointservice/eap_windows_profile.go:146-161 | The baseline verdict can be read off the normal form. |
| EapXmlMatch.AllowedExactly | internal/endpointservice/eap_windows_profile.go:146-161 | With distinct sibling names a profile is an allowed baseline exactly if it is a LANProfile with a field MSM, in it security, in it OneXEnabled, all of the LAN namespace, whose text is false or 0. |
| EapXmlMatch.DescendReordered | internal/endpointservice/eap_windows_profile.go:151-160 | Following the first child of each name through reordered profiles arrives at corresponding fields. |
| EapPlist.ReadWritten | internal/endpointservice/eap_plist.go:52-130 | Reading a written value at any depth and budget gives the value and uses exactly its cost, or fails exactly if it does not fit. |
| EapPlist.RoundTrip | internal/endpointservice/eap_mobileconfig.go:42-50 | A written document reads back as its value, string lists as lists, exactly if it is a dictionary of clean text with containers at most 31 and leaves at most 32 deep and at most 32768 reader calls; clean values beyond that are refused. |
| EapPlist.LeavesRead | internal/endpointservice/eap_plist.go:105-128 | What each leaf element reads as: a date as text, a real as its number; a number, data or real that does not parse, and an unknown element, are refused. |
| EapPlist.NextClean | internal/endpointservice/eap_plist.go:52-130 | Text the reader returns from a document of XML characters has only XML characters. |
| EapPlistStreams.NextCounts | internal/endpointservice/eap_plist.go:52-130 | For every token stream: a value read costs exactly the calls spent, one closing probe per container included, and is within the depth. |
| EapPlistStreams.AcceptedIsLimited | internal/endpointservice/eap_plist.go:17-50 | Whatever an accepted readback holds, it is a dictionary within both limits. |
| EapPlistStreams.Decoder.NextValue | internal/endpointservice/eap_plist.go:52-130 | The recursive reader with its cursor and counter computes the specified reading and stops exactly there; the counter is its termination measure. |
| EapPlistStreams.Decoder.ReadEntries | internal/endpointservice/eap_plist.go:70-92 | The dictionary loop, with missing keys, repeated keys and missing values refused. |
| EapPlistStreams.Decoder.ReadItems | internal/endpointservice/eap_plist.go:93-104 | The array loop. |
| EapPlistStreams.Decoder.ReadLeaf | internal/endpointservice/eap_plist.go:105-128 | The text directly inside a leaf element, nested elements skipped, converted by the element's name. |
| EapPlistStreams.ParsePlist | internal/endpointservice/eap_plist.go:17-50 | A readback is accepted exactly if its first element is a plist with one dictionary and no further value. |
| EapPlistStreams.WriteValue | internal/endpointservice/eap_mobileconfig.go:103-153 | The writer appends exactly the value's tokens, keys in byte order, and refuses exactly the values it has no form for. |
| EapPlistStreams.WriteEntries | internal/endpointservice/eap_mobileconfig.go:105-122 | Whatever order the map gives its keys in, the entries are written in byte order. |
| EapPlistStreams.TokensAppend | internal/endpointservice/eap_mobileconfig.go:103-153 | What follows a value does not change its tokens. |
| EapPlistStreams.MarshalPlist | internal/endpointservice/eap_mobileconfig.go:42-50 | A whole profile is the header, the plist element and the value's tokens. |
| AssistantFrames.SplitInParts | frontend/src/assistant-api.ts:390-395 | Splitting text that arrives in two parts: the first part's frames, then those of its rest with the second part, CR LF cut anywhere. |
| AssistantFrames.LeftmostStays | frontend/src/assistant-api.ts:395-395 | A separator once found stays the first one: no earlier one can be completed by later text. |
| AssistantFrames.SplitCuts | frontend/src/assistant-api.ts:395-395 | Splitting cuts exactly at separators: frames, separators and rest make up the text, and no separator starts in a frame or is left in the rest. |
| AssistantFrames.ChunkingDoesNotMatter | frontend/src/assistant-api.ts:444-450 | For every way of cutting a stream into chunks the frames and the remainder are those of splitting it once. |
| AssistantFrames.ParseAssistantFrames | frontend/src/assistant-api.ts:390-415 | Refuses longer input than the limit, else gives the events of all complete frames, or nothing if one is malformed, and the remainder. |
| AssistantFrames.DataOfFrame | frontend/src/assistant-api.ts:398-402 | For lines joined by LF or CR LF: the data of a frame is the LF-join of what its lines starting with data: carry after white space. |
| AssistantFrames.JoinUndone | frontend/src/assistant-api.ts:399-402 | Cutting into lines undoes joining by LF. |
| AssistantFrames.EventsOfFrame | frontend/src/assistant-api.ts:398-411 | A frame whose data is empty or [DONE] adds no event and refuses nothing, wherever it stands; any other is exactly one event, or refused. |
| AssistantFrames.DoneIsIgnored | frontend/src/assistant-api.ts:403-403 | A closing [DONE] and a comment are passed over whatever the JSON parser says. |
| AssistantFrames.StreamIsChunkFree | frontend/src/assistant-api.ts:444-473 | While all frames decode and inputs stay within the limit, what is delivered and how the stream ends is the same for all chunkings. |
| AssistantFrames.ChunkingExactly | frontend/src/assistant-api.ts:444-473 | For every text within the limit all chunkings deliver the same events exactly if no frame is malformed or nothing is delivered before the first malformed one. |
| AssistantFrames.ChunkingCanMatter | frontend/src/assistant-api.ts:397-413 | One text, cut in two ways, that delivers an event or none: a malformed frame discards the events parsed with it. |
| AssistantFrames.StreamDeliversGood | frontend/src/assistant-api.ts:444-469 | Whatever the chunks, nothing is delivered beyond the events before the first malformed frame. |
| AssistantFrames.StreamSound | frontend/src/assistant-api.ts:451-473 | Delivered events are of the one conversation, each key once, no error report, at most 10000; a normal end needs a terminal event. |
| AssistantFrames.StreamAssistant | frontend/src/assistant-api.ts:441-473 | The read loop computes the specified stream. |
| RestoreProtocol.World.WriteIfUnchanged | internal/endpointservice/channels_print_windows.go:230-255 | A write happens only under a durable record, from its original to its managed value or back, and back only from a value the service had set, or another program since the record was made; success means the value was read back. |
| RestoreProtocol.World.Bring | internal/endpointservice/channels_print_windows.go:149-171 | Brings a setting to one recorded value exactly from the other, whoever set it; any third value is left alone. |
| RestoreProtocol.World.AddRecord | internal/endpointservice/channels_print_windows.go:129-133 | A record becomes durable before any write under it; a failed save leaves the old records. |
| RestoreProtocol.World.RemoveRecord | internal/endpointservice/channels_print_windows.go:149-178 | A record goes; its restriction may still be in place only if its target was not in the last inventory. |
| PrinterAcls.WindowsChannels.RestrictPrinter | internal/endpointservice/channels_print_windows.go:84-145 | First the journal entry, then the write; an entry never changes; a list already restricted is not adopted; at most one write. |
| PrinterAcls.WindowsChannels.RestorePrinter | internal/endpointservice/channels_print_windows.go:149-179 | Success removes the entry, and on a printer in the inventory leaves the original list unless another program has changed it since; on an absent one the restriction may stay. Failure keeps the entry in memory and on disk. |
| PrinterAcls.WindowsChannels.RestoreAll | internal/endpointservice/channels_print_windows.go:192-200 | Off is reported only when no entry is left, and undisturbed exactly if every printer within reach has one of its two recorded lists. An entry is dropped with its restriction in place only if its printer was not in the inventory. |
| PrinterAcls.WindowsChannels.RestrictAll | internal/endpointservice/channels_print_windows.go:201-219 | Controlled is reported only if from every printer of the inventory a restricted list was read in this call; with no other program about, all then are restricted. Undisturbed every printer is restricted exactly if each with an entry has one of its two recorded lists. Earlier entries stay. |
| PrinterAcls.WindowsChannels.LocalPrinters | internal/endpointservice/channels_print_windows.go:26-59 | Lists exactly the local printers, at most 256. |
| PrinterAcls.NewChannels | internal/endpointservice/channels_windows.go:34-71 | A start takes over exactly the durable journal, and refuses one with more than 256 entries. |
| PrinterAcls.LoadableExactly | internal/endpointservice/channels_windows.go:67-83 | After one more printer is restricted and its entry saved, the next start takes the journal over exactly if it had fewer than 256 entries. |
| PrinterAcls.PrintersOneByOne | internal/endpointservice/channels_windows.go:67-83 | Printers plugged in one after another, each restricted: the next start takes the journal over exactly if there were at most 256. |
| PrinterAcls.ForeignValueReplacedExactly | internal/endpointservice/channels_print_windows.go:149-171 | Undisturbed, restoring replaces a list the service had not set for this entry exactly if another program has set precisely the managed list. |
| PrinterAcls.OutsideRestrictionIsReplaced | internal/endpointservice/channels_print_windows.go:149-171 | A run in which a restriction that an administrator took off and placed again is taken away. |
| PrinterAcls.RestrictionLeftExactly | internal/endpointservice/channels_print_windows.go:149-179 | With no other program about, restoring drops an entry and leaves its restriction in place exactly if the printer is not in the inventory and still has the list the service set. |
| PrinterAcls.AbsentPrinterStaysRestricted | internal/endpointservice/channels_print_windows.go:149-200 | A run in which a printer, absent while restrictions are lifted, comes back restricted, and lifting them again leaves it so. |
| PrinterAcls.Run | internal/endpointservice/channels_print_windows.go:84-220 | Over every run with restarts and other programs acting: each write is from a recorded original to its managed list, or back from a list that the service had set for this entry or another program had set since the entry was made; and a restriction of the service is in place without its entry only where that very restriction was in place when its entry was dropped with the printer out of the inventory. |
| WiredLan.WindowsEap.EnsureBinding | internal/endpointservice/eap_windows.go:110-138 | The first time, an allowed baseline and the configuration become durable; an existing 802.1X policy is never recorded, and failure records nothing. |
| WiredLan.ExistingPolicyIsKept | internal/endpointservice/eap_windows.go:125-132 | Over a policy whose OneXEnabled says anything but false or 0, staging fails, records nothing and writes nothing. |
| WiredLan.WindowsEap.Stage | internal/endpointservice/eap_windows.go:102-163 | The binding is durable before the first write, only the recorded baseline is replaced, and success means the user helper installed the identity, the configuration was read back, and the helper confirmed it. Undisturbed a first installation succeeds exactly over an allowed baseline and otherwise changes nothing. |
| WiredLan.WindowsEap.Readback | internal/endpointservice/eap_windows.go:165-194 | Success means the binding, the configuration and the adapter agree and the user helper confirmed it; nothing is written. |
| WiredLan.WindowsEap.Remove | internal/endpointservice/eap_windows.go:196-224 | Success removes the binding and leaves the baseline unless another program has changed it since; a changed profile is preserved with its binding. |
| WiredLan.WindowsEap.Binding | internal/endpointservice/eap_windows.go:62-75 | A binding is used only on the adapter it was made for. |
| WiredLan.ManagedIsNoBaseline | internal/endpointservice/eap_windows.go:129-132 | A profile installed for one binding is never the baseline of another. |
| WiredLan.ForeignProfileReplacedExactly | internal/endpointservice/eap_windows.go:196-224 | Undisturbed, removing replaces a profile the service had not set exactly if another program has set precisely the managed one. |
| WiredLan.OutsideProfileIsReplaced | internal/endpointservice/eap_windows.go:196-224 | A run in which a wired policy that an administrator took off and placed again is taken away. |
| WiredLan.Run | internal/endpointservice/eap_windows.go:102-224 | Over every run with starts anywhere and other programs acting: each write is from a recorded baseline to its managed profile, or back from a profile that the service had set or another program had set since the binding was made; no managed profile of the service is in place unrecorded. |
| ConfigurationFloor.AcceptedOnce | internal/endpointservice/configuration_floor.go:98-112 | An acceptable configuration is the one already accepted under its version, or is above all accepted ones and becomes their summary. |
| ConfigurationFloor.BegunIsValidExactly | internal/endpointservice/configuration_floor.go:33-53 | A cleanup begun and saved is resumed at the next start exactly if it names valid identifiers and at most 768 leases; otherwise the start is refused. |
| ConfigurationFloor.ManyLeasesLockOut | internal/endpointservice/configuration_floor.go:137-146 | A session over more than 768 leases, ended, is saved and keeps the service from starting again. Connecting allows at most 768 (manager.go:810-813); more arrive by a renewal or a configuration (manager.go:707-714, 676). |
| ConfigurationFloor.RestartForgetsExactly | internal/endpointservice/configuration_floor.go:59-114 | A configuration was accepted, the service starts again, and then one arrives that the floor rules out, lower or different under its version: it is accepted exactly if there is no state path. What was accepted is always taken over. |
| ConfigurationFloor.WithoutPathARestartForgets | internal/endpointservice/configuration_floor.go:59-114 | A run without a state path: accepted, ruled out, accepted after a restart. |
| ConfigurationFloor.FloorFile.Save | internal/endpointservice/configuration_floor.go:124-135 | The file's versions never decrease, and a pending cleanup is on file only if memory has one; a failed save leaves the file. |
| ConfigurationFloor.Manager.RememberConfiguration | internal/endpointservice/configuration_floor.go:92-114 | Success means no cleanup was pending, the versions are at or above all accepted ones, and one version never carries two configurations, restarts included; failure changes nothing. |
| ConfigurationFloor.Manager.BeginVPNCleanup | internal/endpointservice/configuration_floor.go:137-146 | Memory turns pending whether or not the save succeeds; versions stay. |
| ConfigurationFloor.Manager.FinishVPNCleanup | internal/endpointservice/configuration_floor.go:148-159 | The file turns first, then memory; a failed save keeps both pending. |
| ConfigurationFloor.RestoreConfigurationFloor | internal/endpointservice/configuration_floor.go:59-90 | A start takes over exactly a valid file and resumes its cleanup, and refuses an invalid one; without a path it always succeeds, from zero. |
| ConfigurationFloor.Run | internal/endpointservice/configuration_floor.go:59-159 | Over every run with failed saves and restarts, accepted versions never decrease, and one configuration version stands for one configuration. |
| ChannelFloor.AcceptedOnce | internal/endpointservice/channels.go:85-106 | A revision never carries two control sets, and an accepted one tops all before. |
| ChannelFloor.LoadsExactly | internal/endpointservice/channels.go:52-106 | After an accepted configured policy the next start succeeds exactly if its version is at least one, and undisturbed a policy is accepted exactly if it is valid, for this device and at or above the floor. |
| ChannelFloor.VersionZeroLocksOut | internal/endpointservice/channels.go:52-106 | A first policy of version 0 that passes the validity check is accepted, and no start succeeds afterwards. |
| ChannelFloor.ChannelManager.Accept | internal/endpointservice/channels.go:85-106 | A configured policy is durable, its marker first, before it counts; failure and unconfigured policies leave the floor; the revision never decreases. |
| ChannelFloor.ChannelManager.RecordPolicyAcceptance | internal/endpointservice/channels_windows.go:115-133 | The marker is saved once, and never taken back. |
| ChannelFloor.ChannelManager.Round | internal/endpointservice/channels.go:107-165 | The last accepted controls are enforced whatever the control plane answers, and a receipt names the enforced revision. |
| ChannelFloor.NewChannelManager | internal/endpointservice/channels.go:52-77 | Without the floor file a start is refused exactly if an acceptance or a restriction is on record, and otherwise begins from zero; an invalid floor is refused; else the floor is taken over. |
| ChannelFloor.RestartForgetsExactly | internal/endpointservice/channels.go:52-106 | A policy was accepted, the floor file is perhaps lost, the service starts again, and then a policy arrives that the floor rules out: undisturbed, it is accepted exactly if the file was lost on a system that neither records the first acceptance nor has restrictions to restore. |
| ChannelFloor.WithoutRecorderLossForgets | internal/endpointservice/channels.go:52-106 | A run without a recorder: accepted, ruled out, accepted after the loss of the file and a restart. |
| ChannelFloor.Run | internal/endpointservice/channels.go:52-106 | Over every run with failed saves and restarts, on a system that records acceptance or whose floor file is never lost: accepted revisions never decrease, and one revision stands for one control set. |
| EapExports.World.WriteIdentity | internal/endpointservice/eap_darwin_identity.go:278-279 | Identity bytes are written only under a durable receipt that names the file; success means all of them reached it and the desktop user owns it. |
| EapExports.World.SaveReceipt | internal/endpointservice/eap_export_darwin.go:28-53 | A failed save leaves the old receipt or the new one; neither disowns a written file. |
| EapExports.World.RemoveIdentified | internal/endpointservice/eap_cleanup_darwin.go:74-104 | A file is deleted only if it is the regular file that its durable receipt names, of at most 1 MiB; with a complete receipt only the desktop user's file of that very content. |
| EapExports.DarwinExports.ExportFile | internal/endpointservice/eap_darwin_identity.go:214-292 | At every crash point a file holding identity bytes has a durable receipt with its identity. Success means that exactly the given bytes were written to the file the complete receipt names, owned by the desktop user; with that user idle the receipt then identifies the file in place, exactly up to 1 MiB. Undisturbed and on a fresh path it succeeds. Only this path's file is ever deleted. |
| EapExports.DarwinExports.RemoveArtifact | internal/endpointservice/eap_cleanup_darwin.go:53-105 | Success leaves neither the receipt nor a file with identity bytes; failure keeps the receipt; a file without a receipt is preserved. Undisturbed it succeeds exactly if the path is managed and the receipt identifies what is in place, or neither exists. |
| EapExports.DarwinExports.RecoverArtifacts | internal/endpointservice/eap_export_darwin.go:67-100 | Success means every file in place with identity bytes is retained; retained receipts are untouched. Undisturbed it succeeds exactly if there are at most 64 receipts and each that is not retained can be removed; what cannot stays in place. |
| EapExports.UnidentifiedFileIsKept | internal/endpointservice/eap_darwin_identity.go:248-272 | A crash between creating the file and its second receipt: every later recovery that does not retain it fails, and the file stays. |
| Sessions.RefreshTokenFromSetCookies | session_credentials.go:51-78 | A token is found exactly if every credential cookie is readable and, where required, secure, and exactly one refresh cookie has a value and does not expire at once. |
| Sessions.AnotherTokenRemainsExactly | session_credentials.go:113-126 | After a replacement another token remains exactly if the set and the delete both failed on one. |
| Sessions.OldTokenStaysInUse | session_credentials.go:91-126 | A run in which a login cannot set its token nor delete the earlier one, and the earlier one is injected afterwards. |
| Sessions.AppHost.InjectStoredRefreshCredential | session_credentials.go:91-111 | A token is injected exactly unblocked, on its own current server, when one is stored and readable; after a block it was stored since then on this server, unless its account's last replacement failed twice or a restart has forgotten the block. |
| Sessions.AppHost.BlockSession | session_credentials.go:144-169 | Another server's response, and one about a token that a readable keyring shows not to be the stored one, change nothing; any other, also one without a token or with an unreadable keyring, blocks, deletes and saves. |
| Sessions.AppHost.MarkRefreshed | session_credentials.go:171-191 | A refresh counts exactly on the current server, unblocked, unless it had a token that a readable keyring shows not to be the stored one; otherwise it changes nothing. |
| Sessions.AppHost.MarkAuthenticated | proxy.go:758-769 | A login counts exactly on the current server; otherwise it changes nothing. |
| Sessions.AppHost.PersistAuthenticated | proxy.go:771-779 | The token is stored, or none is left unless both keyring calls fail; credentials are unblocked. |
| Sessions.AppHost.DeleteRefreshCredential | session_credentials.go:128-142 | Deletes the account's token or nothing. |
| Sessions.AppHost.BeginSwitch | proxy.go:319-371 | A switch is pending exactly if none was and the server is still the one it was asked on. |
| Sessions.AppHost.Activate | proxy.go:376-412 | Exactly the matching code activates the pending server, blocked; a failed save keeps the old one, blocked too. |
| Sessions.AppHost.Send | proxy.go:663-671 | While blocked a request carries no token; else its own, or, exactly for a refresh or a logout without one on the current server, a readable stored one. |
| Sessions.AppHost.ModifyProxyResponse | proxy.go:682-736 | A response changes something exactly if it decides about the session on the current server and is not a refresh outcome for a token that a readable keyring shows not to be the stored one; so a decided outcome for another token than the stored one is ignored exactly if it had a token and the keyring was readable. What changes is stated exactly; only a login or exchange unblocks. |
| Sessions.LateRejectionEndsSession | session_credentials.go:144-169 | A run in which no call fails: a refresh sent while blocked, a login, then the rejection of that refresh, which deletes the new token and blocks. |
| Sessions.UnreadableRejectionEndsSession | session_credentials.go:152-161 | A run in which the rejection of an earlier token deletes the stored one, the keyring being unreadable. |
| Sessions.UnreadableRefreshReplaces | session_credentials.go:180-189 | A run in which the success of an earlier token replaces the stored one, the keyring being unreadable. |
| Sessions.AppHost.Restart | main.go:194-212 | The next process is blocked exactly if the block was saved for its server and can be read. |
| Sessions.RestartForgetsBlock | proxy.go:376-412 | A run in which an activation that cannot be saved blocks the session only until the next start, when the earlier token is used again. |
| Sessions.AppHost.Run | proxy.go:376-412 | Over every interleaving, restarts included, each token injected after a block was stored later than it, on the server it goes to, unless its account's last replacement failed twice or a restart has forgotten the block. |
| ProxyTelemetry.TelemetryClient.ProxyAggregate | internal/endpointservice/client.go:408-437 | The reported window and the new baseline of one snapshot. |
| ProxyTelemetry.ReportAll | internal/endpointservice/client.go:408-437 | A run of the client reports exactly the specified windows. |
| ProxyTelemetry.WindowsSpanOneFlow | internal/endpointservice/client.go:408-441 | Over every run each window is what passed between two samples of one flow, the same engine, mode, profile, revision and proxy, with no counter lower; or it is empty at one. |
| ProxyTelemetry.ReportExactly | internal/endpointservice/client.go:408-437 | A sample reports a window exactly if it is active and usable; the window reaches back to the previous sample exactly if the flow is the same and no counter is lower, and is empty otherwise. |
| ProxyTelemetry.WindowsDoNotOverlap | internal/endpointservice/client.go:408-437 | With time not going back, windows never overlap and bytes are never negative. |
| ProxyTelemetry.BytesAreConserved | internal/endpointservice/client.go:408-441 | The reported bytes are the sum of last minus first totals over the stretches between inactivity, flow changes and counter resets; unusable snapshots change nothing. |

## Left out

- Native calls, sockets, pipes, HTTP, TLS, URL and cookie syntax, cryptography, X.509, and the lexing of JSON, XML and base64: they are parameters or answers of the outside.
- The tunnel's private key, and endpoint host syntax: no property depends on them.
- Absent and empty lists in a tunnel readback are one value; Go's comparison tells them apart.
- The packet evaluator is not in the repository: it is specified here as first match with default deny.
- EapPlist.RoundTrip: does not model the 4 MiB limit on a readback's bytes, because documents are token streams; Go strings with invalid UTF-8 are no values here.
- EapXmlReader.ParseXml: does not model the 128 KiB limit, UTF-16 decoding or the encoding declaration; tokens stand for what the decoder delivers.
- AssistantFrames.StreamAssistant: starts from decoded text; bytes of one character split across chunks are the decoder's matter.
- EapManager.AdmissionManager.Save: the 256 KiB limit on the state file is one of the ways a save may fail, because the encoded size is not modelled.
- EapManager.AdmissionManager.Check: takes the random ID it may draw as a parameter, as does Prepare.
- EapManager.AdmissionManager.EnsureIdentity: reads the clock once for the decision whether the active identity still serves, where the code reads it for each comparison; Check and Renew likewise.
- Status and Connect of the identity manager read state and call the system; they change nothing.
- PrinterAcls.WindowsChannels.RestoreAll: does not promise that lifting restrictions reaches printers out of the inventory, because the service drops their entries without looking.
- PrinterAcls.LoadableExactly: does not model the 256 KiB bound on the saved journal; a save beyond it is one that fails.
- WiredLan.Run: does not say for which of its profiles the service had set what it replaces, because two profiles on one adapter can render the same configuration; the identity manager normally allows one wired profile an adapter.
- PrinterAcls.NewChannels: the journal's identity and version checks are ways reading it may fail.
- WiredLan.WindowsEap.Stage: the wireless branches go through the user helper and are not modelled.
- ChannelFloor.ChannelManager.Accept: the contract library's validity check is a parameter; the library is not part of this model.
- EapExports.DarwinExports.ExportFile: creating the directories is one step that may fail; copies the desktop user makes or moves elsewhere are the user's; removals take effect on disk in the order they are made.
- USB and clipboard channels, software download, updater, logging, the window and tray code and the user interface are not modelled; no property stated here depends on them.
- The VPN manager beyond its configuration floor, and the mihomo engine.
- Real time and timers: points in time are parameters or arbitrary readings.
