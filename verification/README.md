# Verified models of the Security Profiles Operator

The Security Profiles Operator installs seccomp, SELinux and AppArmor profiles
on the nodes of a Kubernetes cluster, records new ones, and distributes them as
OCI artifacts. This project models the parts of it in which several steps,
nodes or representations have to agree, and proves that they do, or exactly
when they do. `dafny verify dfyconfig.toml` checks everything.

| file | what it models | main results |
|---|---|---|
| `FinalizerNames.dfy`, `FinalizerProtocol.dfy` | node daemons adding and removing finalizers on one stored profile with optimistic locking, crashes and deletion | `ProtocolSafeIffSeparate`, `SeparateByNames`, `RetryOperation` |
| `AppArmorHost.dfy` | which AppArmor policy files and loaded policies on a host are the operator's, over runs of reconciles | `ForeignProfilesAreSpared`, `OperatorRefusedIff`, `FinalizerOutlivesHostIff`, `InstalledIsLoadedIff` |
| `ClusterHosts.dfy` | both together: several nodes with their hosts and the requests of their finalizers | `ClusterGuardedIffSeparate` |
| `CilReader.dfy`, `CilPrinter.dfy`, `CilRoundTrip.dfy`, `CilLaws.dfy`, `CilTranslator.dfy` | translating a SelinuxProfile to CIL text, and an independent reader of that text | `TextMeansProfile`, `TextCanonical`, `Object2Cil` |
| `RawPolicy.dfy` | the one-pass scan of raw CIL policies, the blockinherit check, and the block they are wrapped in | `Scan`, `ValidatePolicy`, `InheritsSpelled`, `WrappedBlockClosesLast` |
| `ContainerKeys.dfy`, `ContainerProfiles.dfy`, `SyscallRecorder.dfy` | the two-way tables of the recorder and the syscall merge | the methods of `Table`, `Recorder.Syscalls`, `CacheSoundInEveryRun` |
| `ProfileUnion.dfy` | uniting AppArmor profiles whose paths may hold variables | `UnionAppArmor` |
| `Platforms.dfy`, `ArtifactLayers.dfy` | platform names, pushing profiles as layers of an artifact, and their selection on pull | `PackProfiles`, `PushThenSelect`, `SelectSpelled`, `ParseUndoesPrint` |
| `AllowList.dfy`, `SeccompConvert.dfy`, `Conditions.dfy`, `EventNote.dfy` | allow lists, OCI conversion, status conditions, event notes | `AllowListChanged`, `ApiRoundTrip`, `CanBeUnequalIff`, `TruncateEventNote` |
| `Ordering.dfy`, `Alphabets.dfy`, `Wrappers.dfy` | sorting, sorted duplicate-free lists, letters, optional values | helpers |

State that the source updates in place is a class here, its loops are loops,
and each such method is proved against a function of the old state about which
the results are then proved. Results of calls outside the model (file system,
kernel, API server, digests, Unicode tables, syscall names, the profile merger)
are parameters. Concurrent actors are steps of a state machine.

The functions that methods are proved against have laws of their own, many of
them named `...Spelled`, that say what they compute in terms of the data rather
than of further helpers. Automatic induction is switched off in every lemma, so
each inductive step is written out.

## Properties that hold only under a condition

- A node's finalizer can be taken off by another node. The protocol is safe for
  a set of nodes exactly if no node removes the current finalizer of another
  one (`ProtocolSafeIffSeparate`), which by names means: no stem of one node
  equals the stem, or the truncated name, of another (`SeparateByNames`). A node
  named like the first 55 characters of a longer name breaks this without any
  digest collision (`LegacyCollision`), and partial profiles break it with any
  second node (`PartialProfilesShare`).
- The profile object can go while the host of some node still has its policy.
  In runs without a mistaken removal it never does if and only if the nodes are
  separate (`ClusterGuardedIffSeparate`), and a mistaken removal lets it go even
  with one node (`MistakeUncovers`).
- The operator can refuse to install its own AppArmor profile. In its own runs
  it does so exactly if the state is not Installed and either a lookup fails, so
  that what is there is assumed to be foreign, or an earlier step left the
  policy loaded without a file and no step recovered it (`OperatorRefusedIff`).
  Each cause happens alone (`FailedLookupRefuses`, `FailedCheckStrands`), and a
  stranded policy is not always refused (`StrandedWithEvidenceRecovers`).
- The finalizer can go while the AppArmor profile stays on the node, if the
  policy file cannot be looked at during the removal
  (`BlindRemovalLeavesProfile`), or the policy is stranded without evidence
  (`StrandedRemovalLeavesPolicy`).
  These are the only ways (`FinalizerOutlivesHostIff`).
- Installed does not mean that the generated policy is the loaded one
  (`StaleKernelIsInstalled`). It is exactly if no step up to then left kernel
  and file out of step: the new policy loaded and its file taken back, or its
  file kept and the policy not loaded (`InstalledIsLoadedIff`).
- Pushing one profile per platform can fail although no two platforms match,
  because a variant and a version look alike in a layer name
  (`SharedNameRefused`). It succeeds exactly if the layer names are distinct
  (`PushSucceedsIff`), and then every pull is served what was pushed for it
  exactly if there are 1 to 128 profiles (`PushThenSelect`).
- A translated SelinuxProfile has a rule for a denied type exactly if the
  profile's own type is denied and the spec uses the placeholder for it
  (`NoDeniedTypeIff`, `DeniedSelfIsEmitted`).
- Two condition lists that say the same compare equal under every sort if and
  only if conditions of one type say the same (`CanBeUnequalIff`); otherwise the
  answer depends on how the sort, which is not stable, arranges them, and a list
  may even differ from itself (`InconsistentIsUnequal`).
- A ptrace rule united with itself is the same rule exactly if it is not empty
  and its accesses are sorted and distinct (`UnionPtraceIdempotent`).
- The OCI conversion is undone exactly on syscalls without negative numbers and
  with an index for every argument (`ApiRoundTrip`).

Where code and comments disagree the model follows the code: in Object2CIL the
`container` entry among the system inherits is skipped although, with inherited
profiles, nothing has written it before.

## Model

| member | source | states |
|---|---|---|
| FinalizerNames.NodeFinalizerShape | internal/pkg/util/finalizers.go:92-134 | The finalizer is the node's stem and a fixed suffix, never longer than a label; the fallback branch is never taken, and a legacy finalizer exists exactly for names that do not fit |
| FinalizerNames.NamesSpelled | internal/pkg/util/finalizers.go:92-134 | The finalizers in characters: up to 55 of them a name gets the suffix; a longer one its first 16, a dash and 38 of the digest, and the first 55 as the legacy one |
| FinalizerNames.HashedSpelled | internal/pkg/util/names.go:60-77 | A hashed name is the prefix, a dash and as much of the digest as fits; it fails exactly if not one character of it does |
| FinalizerNames.SharedFinalizer | internal/pkg/util/names.go:60-77 | Exactly when two nodes get one finalizer: never if both names fit, otherwise only through the 16 character prefix and 38 digest characters |
| FinalizerNames.LegacyCollision | internal/pkg/util/finalizers.go:120-134 | Exactly when the current finalizer of one node is the legacy one of another; a name that is the 55 character prefix of another one is such a case |
| FinalizerProtocol.Without | internal/pkg/util/finalizers.go:55-78 | Taking a finalizer off the list leaves exactly the other members |
| FinalizerProtocol.WithoutCounts | internal/pkg/util/finalizers.go:55-78 | The other members stay as often as they were |
| FinalizerProtocol.Stripped | internal/pkg/nodestatus/nodestatus.go:365-371 | A removal leaves exactly what is neither the node's current nor its legacy finalizer |
| FinalizerProtocol.WriteKeepsInv | internal/pkg/util/finalizers.go:29-78 | A conditional update, stale or current, keeps every holding node's finalizer stored when nodes are separate |
| FinalizerProtocol.ReadKeepsInv | internal/pkg/util/finalizers.go:29-78 | A read and local edit keeps the invariant; finding nothing to change means the node's wish already holds |
| FinalizerProtocol.StepKeepsInv | internal/pkg/nodestatus/nodestatus.go:200-204 | Every step of any node, crash, foreign edit or deletion request keeps the protocol invariant |
| FinalizerProtocol.RunKeepsInv | internal/pkg/nodestatus/nodestatus.go:345-371 | Every interleaving of add, migrate and remove steps of any number of nodes keeps it |
| FinalizerProtocol.ProtocolSafeIffSeparate | internal/pkg/nodestatus/nodestatus.go:345-371 | In every run from every initial state a node that holds its finalizer still has it stored, so the profile is not collected, if and only if no node removes another one's finalizer |
| FinalizerProtocol.InterferenceSteals | internal/pkg/nodestatus/nodestatus.go:340-371 | If one node removes the finalizer of another, a run of eight steps from a fresh profile collects it while the other one still holds it |
| FinalizerProtocol.PartialProfilesShare | internal/pkg/nodestatus/nodestatus.go:522-530 | For partial profiles the nodes are separate exactly if there are no two of them |
| FinalizerProtocol.SeparateByNames | internal/pkg/util/finalizers.go:102-134 | Separation in terms of node names only: no equal stems, and no stem that is the truncated name of another node |
| FinalizerProtocol.RemovalTakesExactlyOwn | internal/pkg/util/finalizers.go:55-78 | A removal that goes through takes exactly the two own finalizers off what is stored at that moment, and collects the profile exactly if deletion was requested and nothing else is left |
| FinalizerProtocol.OthersLeaveAlone | internal/pkg/nodestatus/nodestatus.go:200-204 | Whatever the others do, a node's own phase and claim do not change |
| FinalizerProtocol.AttemptRead | internal/pkg/util/finalizers.go:29-78 | A read leads to a write of the edited list, under the version read, exactly if the profile is there and not as wanted; if it is as wanted the wish is fulfilled, and if it is not there the next of five attempts follows |
| FinalizerProtocol.EditIffNotDone | internal/pkg/util/finalizers.go:29-78 | The edit changes the stored list exactly if it is not as wanted |
| FinalizerProtocol.MigrationAddsOwn | internal/pkg/nodestatus/nodestatus.go:345-361 | Undisturbed migration appends the own finalizer exactly if the legacy one is there without it, keeps the legacy one, and otherwise changes nothing |
| FinalizerProtocol.AttemptWrite | internal/pkg/util/finalizers.go:29-78 | A write fulfils the wish exactly if the stored version is the one read; otherwise the next of five attempts follows |
| FinalizerProtocol.WorksAsSeen | internal/pkg/util/retries.go:46-77 | What the loop sees of a round is whether the profile was there at the read and, unless it was as wanted, kept its version until the write |
| FinalizerProtocol.StatusClient.Attempt | internal/pkg/util/retries.go:46-77 | One round of a read and at most one write with arbitrary interference before each: it succeeds exactly if the profile is there at the read and is as wanted already or keeps its version until the write; success means the wish is stored, failure leaves the claim as it was and moves to the next round |
| FinalizerProtocol.StatusClient.RetryOperation | internal/pkg/util/retries.go:46-77 | The loop and the given interference are a run of the protocol made of one to five rounds. It stops with success at the first round that works: the profile is there at the read and is as wanted already or keeps its version until the write. It fails exactly after five rounds that do not work. On success the stored profile has the finalizer, or neither of the two |
| FinalizerProtocol.StatusClient.CreateNodeFinalizer | internal/pkg/nodestatus/nodestatus.go:200-204 | After success the finalizer is stored, and in every continuation as long as the node holds it |
| AppArmorHost.FailedInstallRestores | internal/pkg/daemon/apparmorprofile/apparmor_supported.go:348-418 | A failed installation leaves the policy file as it was, and the whole host if the load failed |
| AppArmorHost.InstallIdempotent | internal/pkg/daemon/apparmorprofile/apparmor_supported.go:348-375 | Repeating a successful installation never changes the host, whatever fails, and reports unchanged if nothing fails |
| AppArmorHost.InstallThenRemove | internal/pkg/daemon/apparmorprofile/apparmor_supported.go:444-506 | Installing on a clean host and removing restores the clean host and is never refused |
| AppArmorHost.ReservedSpelled | internal/pkg/daemon/apparmorprofile/apparmor_supported.go:173-209 | An installation is refused for its name exactly for the three names and two prefixes of container runtimes, with nothing changed |
| AppArmorHost.UnmarkedInstall | internal/pkg/daemon/apparmorprofile/apparmor_supported.go:125-168 | A file without the marker: refused as not ours, with nothing changed, exactly if there is no evidence and a policy is or may be loaded or the content is not the generated policy; otherwise, if nothing fails, file and kernel get the marked policy |
| AppArmorHost.UnmarkedRemove | internal/pkg/daemon/apparmorprofile/apparmor_supported.go:444-506 | Removal with such a file: left alone, with nothing changed, exactly if the content is not the generated policy, whatever the evidence; otherwise, if nothing fails, nothing is left |
| AppArmorHost.InstallRefusedIff | internal/pkg/daemon/apparmorprofile/apparmor_supported.go:125-168 | With only own files an installation is refused as not ours exactly if there is no evidence, a policy is or may be loaded, and no file is seen to carry the marker |
| AppArmorHost.RemoveCleansIff | internal/pkg/daemon/apparmorprofile/apparmor_supported.go:444-506 | A removal that does not fail cleans such a host exactly unless the file cannot be looked at, or a policy without a file has no evidence; then nothing changes |
| AppArmorHost.ReconcileSparesForeign | internal/pkg/daemon/apparmorprofile/apparmorprofile.go:240-343 | No reconcile touches a foreign host, and none creates evidence for it |
| AppArmorHost.ForeignProfilesAreSpared | internal/pkg/daemon/apparmorprofile/apparmorprofile.go:240-401 | Over every run of installs, updates, disables and deletes with any specs and failures, while others change the host between them: a file that is neither marked nor generated, or a policy without a file, is never rewritten, unloaded or deleted |
| AppArmorHost.OwnFilesAreMarked | internal/pkg/daemon/apparmorprofile/apparmor_supported.go:348-418 | In every run of the operator alone a present policy file carries the marker |
| AppArmorHost.ReconcileOnHost | internal/pkg/daemon/apparmorprofile/apparmor_supported.go:348-506 | The host after any reconcile in closed form: which of file and kernel get the new policy, which keep the old one, and which lose it |
| AppArmorHost.StrandedIff | internal/pkg/daemon/apparmorprofile/apparmor_supported.go:377-418 | After every run of the operator alone a policy is loaded without a file exactly if a step loaded it and took its file back and no later step wrote the file for good or unloaded it |
| AppArmorHost.ReconcileAbandonsIff | internal/pkg/daemon/common/reconciler.go:92-193 | The exact guards under which one reconcile takes off the finalizer while the profile is still on the host |
| AppArmorHost.OperatorRefusedIff | internal/pkg/daemon/apparmorprofile/apparmor_supported.go:125-168 | At every step of every run of the operator alone its installation is refused as not ours exactly if the state is not Installed and either a lookup misleads it or an earlier step stranded the policy |
| AppArmorHost.FinalizerOutlivesHostIff | internal/pkg/daemon/common/reconciler.go:92-193 | Over every such run the finalizer stays while anything is on the host, if and only if no removal mistakes the own profile for a foreign one |
| AppArmorHost.OperatorRemovesCleanlyIff | internal/pkg/daemon/apparmorprofile/apparmor_supported.go:452-506 | After every such run a removal that does not fail restores the clean host exactly unless the host cannot be looked at or the policy is stranded without evidence |
| AppArmorHost.OutOfStepIff | internal/pkg/daemon/apparmorprofile/apparmor_supported.go:348-418 | After every such run kernel and file hold different policies exactly if a step let one of them have the new policy without the other, and no later step brought them together |
| AppArmorHost.InstalledIsLoadedIff | internal/pkg/daemon/apparmorprofile/apparmor_supported.go:348-418 | After every successful installation of such a run the file holds the generated policy, and the kernel holds it too exactly if nothing up to then left them out of step |
| AppArmorHost.StatusTellsHost | internal/pkg/daemon/common/reconciler.go:219-310 | What a state a reconcile moves to tells of the host: Installed that the file holds the generated policy and some policy is loaded, the generated one unless they are out of step; Disabled that nothing is left exactly unless the removal mistook it; deletion only marks first |
| AppArmorHost.StatusNeedsFinalizer | internal/pkg/nodestatus/nodestatus.go:136-157 | Wherever the creation fails, a new status never exists without the finalizer |
| AppArmorHost.ReconcileKeepsFailed | internal/pkg/daemon/apparmorprofile/apparmorprofile.go:240-343 | For every combination of failing API calls, whatever a failing one would have changed (finalizer, status, state, evidence, legacy status) or had to be read first (host) is as before |
| AppArmorHost.ReconcileWorks | internal/pkg/daemon/apparmorprofile/apparmorprofile.go:240-343 | What reconciling an enabled or disabled profile comes to when nothing fails: which status is created from which legacy state, what disabling leaves, what an installation leaves in file, kernel and status |
| AppArmorHost.DeletionWorks | internal/pkg/daemon/common/reconciler.go:92-193 | Likewise for a deleted profile: marked first, kept while in use, then finalizer and status go, and the host is clean unless the policy is stranded without evidence |
| AppArmorHost.PartialWorks | internal/pkg/daemon/apparmorprofile/apparmorprofile.go:240-343 | Likewise for a partial profile: a status and the shared finalizer, and the host is untouched |
| AppArmorHost.FailedLookupRefuses | internal/pkg/daemon/apparmorprofile/apparmor_supported.go:211-237 | A failed listing of the loaded policies refuses a first installation with nothing stranded |
| AppArmorHost.StrandedWithEvidenceRecovers | internal/pkg/daemon/apparmorprofile/apparmor_supported.go:125-168 | A policy stranded while the state is still Installed is recovered by the next installation |
| AppArmorHost.FailedCheckStrands | internal/pkg/daemon/apparmorprofile/apparmor_supported.go:377-418 | One failed check after a first load: whatever the operator does later, with any specs and failures, the policy stays loaded without a file and every installation it gets to is refused |
| AppArmorHost.StaleKernelIsInstalled | internal/pkg/daemon/apparmorprofile/apparmor_supported.go:377-418 | A failed check during an update that is then reverted: the state is Installed while the kernel has the update |
| AppArmorHost.BlindRemovalLeavesProfile | internal/pkg/daemon/apparmorprofile/apparmor_supported.go:444-466 | From an untouched node, one policy file that cannot be looked at during deletion: finalizer and status go, the profile stays |
| AppArmorHost.StrandedRemovalLeavesPolicy | internal/pkg/daemon/apparmorprofile/apparmor_supported.go:444-466 | From an untouched node, a policy stranded by a failed check: deleting the profile removes finalizer and status with nothing failing, and the policy stays loaded |
| AppArmorHost.Daemon.LoadPolicyFile | internal/pkg/daemon/apparmorprofile/apparmor_supported.go:348-418 | Write, load, check and restore step by step meet the specification `UnmarkedInstall`, `FailedInstallRestores` and `ReconcileOnHost` are about, and a failure restores the file |
| AppArmorHost.Daemon.InstallProfile | internal/pkg/daemon/apparmorprofile/apparmor_supported.go:125-168 | Meets the specification; without evidence a foreign host is refused and unchanged |
| AppArmorHost.Daemon.RemoveProfile | internal/pkg/daemon/apparmorprofile/apparmor_supported.go:452-506 | Meets the specification `UnmarkedRemove` and `RemoveCleansIff` are about; removed means clean, not ours means unchanged |
| AppArmorHost.Daemon.HandleProfileDeletion | internal/pkg/daemon/apparmorprofile/apparmorprofile.go:382-401 | The installed annotation is the evidence the removal gets; success leaves an own host clean unless it was mistaken |
| AppArmorHost.Daemon.CreateNodeStatus | internal/pkg/nodestatus/nodestatus.go:136-157 | Finalizer first, then the status with the state of a legacy status, for every point of failure: a new status has its finalizer, and the host is untouched |
| AppArmorHost.Daemon.ReconcileProfileDeletion | internal/pkg/daemon/common/reconciler.go:92-193 | Terminating first, then removal, finalizer and status, for every point of failure: the finalizer goes only from a clean host unless it was mistaken, and the status only after the finalizer |
| AppArmorHost.Daemon.ReconcileDisabledProfile | internal/pkg/daemon/common/reconciler.go:254-310 | For every point of failure the evidence is dropped only when the host is clean, unless it was mistaken |
| AppArmorHost.Daemon.ReconcileProfile | internal/pkg/daemon/apparmorprofile/apparmorprofile.go:240-343 | One reconcile is one step of the machine the run theorems are about |
| AppArmorHost.Daemon.ReconcileAll | internal/pkg/daemon/apparmorprofile/apparmorprofile.go:240-343 | Any sequence of reconciles is a run of that machine |
| ClusterHosts.VisitIsReconcile | internal/pkg/daemon/apparmorprofile/apparmorprofile.go:240-401 | The reconcile split at its finalizer requests does on the host, and with the finalizer, what the whole reconcile does |
| ClusterHosts.StatusFollowsFinalizer | internal/pkg/nodestatus/nodestatus.go:136-157 | In every step of the cluster a node gets a status only while it holds its finalizer, and loses it only when it does not |
| ClusterHosts.RequestKeepsInv | internal/pkg/nodestatus/nodestatus.go:200-371 | Every request of any node, other writer or user keeps every node with something on its host holding its finalizer |
| ClusterHosts.VisitKeepsInv | internal/pkg/daemon/common/reconciler.go:92-193 | So does every reconcile's work on its host that mistakes nothing, since a removal starts only from a clean host |
| ClusterHosts.RunKeepsInv | internal/pkg/daemon/common/reconciler.go:92-193 | So does every interleaving of them |
| ClusterHosts.ClusterGuardedIffSeparate | internal/pkg/daemon/common/reconciler.go:92-193 | In every run of several nodes without a mistaken removal the profile stays stored with a node's finalizer while that node's host has anything of it, if and only if no node removes the finalizer of another |
| ClusterHosts.InterferenceUncovers | internal/pkg/nodestatus/nodestatus.go:340-371 | Nodes that are not separate: a run without mistakes collects the profile while a host has its policy |
| ClusterHosts.MistakeUncovers | internal/pkg/daemon/apparmorprofile/apparmor_supported.go:444-466 | In every set of nodes that is not empty, one mistaken removal lets the profile go before the policy |
| CilRoundTrip.TextReadsBack | internal/pkg/translator/obj2cil.go:159-238 | The text read as s-expressions is one block of the profile's name with exactly the inherit, permissive and allow statements |
| CilRoundTrip.TextMeansProfile | internal/pkg/translator/obj2cil.go:159-238 | An independent reader gets back the name, the inherit list, the permissive flag and exactly the (type, class, permission) rules of the spec with the own type in place of the self marker |
| CilRoundTrip.TextCanonical | internal/pkg/translator/obj2cil.go:293-325 | Specs that differ only in map order or in order and repetition of permissions give identical text |
| CilRoundTrip.NothingDenied | internal/pkg/translator/obj2cil.go:253-291 | Every rule of a translated profile comes from names of the spec outside the built-in minus allowed plus denied sets |
| CilRoundTrip.NoDeniedTypeIff | internal/pkg/translator/obj2cil.go:253-325 | No emitted rule is for a denied type exactly unless the profile's own type is denied and the placeholder for it is used |
| CilRoundTrip.DeniedSelfIsEmitted | internal/pkg/translator/obj2cil.go:253-325 | A concrete profile that is translated although its own type is denied and it has a rule for it |
| CilLaws.WordSpelled | internal/pkg/translator/obj2cil.go:37-50 | The names the expression accepts, character by character |
| CilLaws.BlockNameSpelled | internal/pkg/translator/obj2cil.go:37-50 | A block name is such a name that starts with a letter and has no dot |
| CilLaws.InheritsSpelled | internal/pkg/translator/obj2cil.go:189-211 | The inherit list ends with the given profiles; before them stand the members of the system list other than container, in order and as often, and container stands there exactly if no profile is given, once and first |
| CilLaws.RulesSpelled | internal/pkg/translator/obj2cil.go:293-325 | A rule is one of the profile exactly if the spec lists its permission under its type and class, or under the self marker for the own type |
| CilLaws.MeaningSpelled | internal/pkg/translator/obj2cil.go:159-238 | Text with the meaning of a profile reads back to its name, its permissive flag, an inherit list of that form and exactly the rules the spec lists |
| CilLaws.RuleSpelled | internal/pkg/translator/obj2cil.go:253-291 | A rule is accepted exactly if type, class and every permission are names and each is listed as denied in no option and, if denied by default, listed as allowed |
| CilLaws.TranslatableSpelled | internal/pkg/translator/obj2cil.go:159-238 | A profile is translated exactly if its name, its inherits and all its rules are of that form |
| CilLaws.LinesSpelled | internal/pkg/translator/obj2cil.go:189-211 | The block, inherit and permissive lines in characters |
| CilLaws.RuleLineSpelled | internal/pkg/translator/obj2cil.go:293-325 | The line of a rule in characters, around the sorted distinct permissions |
| CilLaws.JoinSpelled | internal/pkg/translator/obj2cil.go:293-325 | They are joined by single blanks |
| CilTranslator.AdjustDenylist | internal/pkg/translator/obj2cil.go:116-157 | The two loops compute built-in minus allowed plus denied, denial winning |
| CilTranslator.DeniedOptions | internal/pkg/translator/obj2cil.go:116-157 | The three denylists are adjusted each by its own options |
| CilTranslator.FirstBadIdentifier | internal/pkg/translator/obj2cil.go:242-251 | The first name that is not an identifier, all earlier ones being identifiers |
| CilTranslator.WriteInherits | internal/pkg/translator/obj2cil.go:189-211 | The inherit lines are those of the computed list, in its order |
| CilTranslator.FirstRefused | internal/pkg/translator/obj2cil.go:253-291 | The first class of a type whose rule is invalid or denied |
| CilTranslator.WriteClasses | internal/pkg/translator/obj2cil.go:217-237 | Succeeds exactly if all rules of the type are valid, then in sorted order of the classes |
| CilTranslator.WriteTypeLines | internal/pkg/translator/obj2cil.go:217-237 | The lines of all types before the first one with a refused rule, which it names |
| CilTranslator.WriteTypes | internal/pkg/translator/obj2cil.go:217-237 | Succeeds only if all rules are valid; a refusal names an invalid rule of the spec |
| CilTranslator.Object2Cil | internal/pkg/translator/obj2cil.go:159-238 | Succeeds exactly if all names are valid and every name of a rule is permitted by the options, and then the text reads back to the profile: its name, its permissive flag, the given profiles at the end of the inherits with the system ones other than container before them and container first exactly without profiles, and exactly the rules of the spec; each error is returned exactly for its kind of defect and names one |
| Ordering.SortedKeys | api/selinuxprofile/v1/selinuxprofile_types.go:127-143 | Whatever order the map iterates in, the sorted keys are the one ascending list of the key set |
| Ordering.StringLeIff | api/selinuxprofile/v1/selinuxprofile_types.go:127-143 | The order of the sort: one is a prefix of the other, or the smaller one where they first differ |
| Ordering.SortCompactUnique | internal/pkg/daemon/bpfrecorder/bpfrecorder_seccomp.go:128-132 | Sorting and compacting gives the one ascending list of the members |
| RawPolicy.Scan | api/selinuxprofile/v1/rawselinuxprofile_types.go:215-278 | Accepts exactly the texts with balanced parentheses, no negative prefix and no restricted first word after an opening parenthesis; each refusal means what it says |
| RawPolicy.BalancedSpelled | api/selinuxprofile/v1/rawselinuxprofile_types.go:215-278 | Balanced means: as many closing as opening parentheses, and in no prefix more |
| RawPolicy.FirstWordsSpelled | api/selinuxprofile/v1/rawselinuxprofile_types.go:215-278 | The scan's first words are those of the text taken apart: an opening parenthesis, separators, and a word that nothing continues |
| RawPolicy.NoMatchInside | api/selinuxprofile/v1/rawselinuxprofile_types.go:280-298 | Matches of the blockinherit expression do not overlap, so the leftmost search misses none |
| RawPolicy.ValidateBlockInherits | api/selinuxprofile/v1/rawselinuxprofile_types.go:280-298 | Accepts exactly if after every opening parenthesis, white space and the keyword, in any mixture of cases, there is white space, an allowed template and, after white space, the closing parenthesis; each refusal means what it says |
| RawPolicy.FindRefusedInherit | api/selinuxprofile/v1/rawselinuxprofile_types.go:280-298 | The loop over the matches finds the refused one, if any |
| RawPolicy.InheritsSpelled | api/selinuxprofile/v1/rawselinuxprofile_types.go:90-97 | The matches of the two expressions are all allowed exactly if the text has that form, whatever parts it is put together from |
| RawPolicy.ForeignTemplateRefused | api/selinuxprofile/v1/rawselinuxprofile_types.go:280-298 | Text that inherits a name that is no template is refused, however keyword and white space are written and whatever stands around it |
| RawPolicy.NoKeywordPasses | api/selinuxprofile/v1/rawselinuxprofile_types.go:280-298 | Text without the keyword after an opening parenthesis and white space is not refused for it |
| RawPolicy.ValidatePolicy | api/selinuxprofile/v1/rawselinuxprofile_types.go:194-278 | Accepts exactly if the text is not blank, has no NUL, inherits only allowed templates, is balanced and starts no statement with a restricted word, all five said of the text alone; every refusal is a true statement about the text |
| RawPolicy.AcceptableSpelled | api/selinuxprofile/v1/rawselinuxprofile_types.go:194-278 | The five checks together are that form of the text |
| RawPolicy.WrappedBlockClosesLast | internal/pkg/daemon/selinuxprofile/rawselinuxprofile.go:98-119 | Trimmed, indented and wrapped, the first parenthesis of an accepted policy is closed by the last one only |
| RawPolicy.WrapKeepsText | internal/pkg/daemon/selinuxprofile/rawselinuxprofile.go:98-119 | Wrapping puts the policy into a block of the name and changes nothing but white space |
| RawPolicy.Enclose | api/selinuxprofile/v1/rawselinuxprofile_types.go:194-278 | One more pair of parentheses around balanced text matches only itself |
| ContainerKeys.Table.constructor | internal/pkg/daemon/bpfrecorder/containerkeys.go:53-59 | The empty table is the empty map |
| ContainerKeys.Table.RemoveKeyFrom | internal/pkg/daemon/bpfrecorder/containerkeys.go:93-100 | The key leaves the set of one container, and an empty set goes with it |
| ContainerKeys.Table.Insert | internal/pkg/daemon/bpfrecorder/containerkeys.go:63-90 | The key moves to the container in the one map both indexes stand for, exactly if it is there already or there is room; otherwise it is refused and nothing changes |
| ContainerKeys.Table.Get | internal/pkg/daemon/bpfrecorder/containerkeys.go:103-110 | Looks the key up in that map |
| ContainerKeys.Table.Delete | internal/pkg/daemon/bpfrecorder/containerkeys.go:157-165 | Takes exactly the key off that map |
| ContainerKeys.Table.DeleteContainer | internal/pkg/daemon/bpfrecorder/containerkeys.go:168-177 | Takes exactly the keys of the container off that map |
| ContainerKeys.Table.Clear | internal/pkg/daemon/bpfrecorder/containerkeys.go:180-186 | Empties that map |
| ContainerKeys.Table.KeysOf | internal/pkg/daemon/bpfrecorder/containerkeys.go:121-144 | The ascending duplicate-free list of exactly the keys of the requested containers, which may repeat |
| ContainerKeys.AgreeInsert | internal/pkg/daemon/bpfrecorder/containerkeys.go:63-90 | Dropping the key from its old set and adding it to the new one keeps both indexes views of one map, without empty sets |
| ContainerKeys.AcceptsIff | internal/pkg/daemon/bpfrecorder/containerkeys.go:63-90 | A key is accepted exactly if it is the container's already or the container has fewer keys than its bound |
| ContainerKeys.InsertedBounded | internal/pkg/daemon/bpfrecorder/containerkeys.go:63-90 | An accepted insertion keeps every container within its bound |
| ContainerKeys.KeyListUnique | internal/pkg/daemon/bpfrecorder/containerkeys.go:121-144 | The key list depends only on the set of requested containers |
| ContainerProfiles.Table.constructor | internal/pkg/daemon/bpfrecorder/containerprofiles.go:43-48 | The empty table is the empty relation |
| ContainerProfiles.Table.Insert | internal/pkg/daemon/bpfrecorder/containerprofiles.go:51-62 | Appends the pair to the insertion ordered relation unless it is there; both lists stay its projections |
| ContainerProfiles.Table.Get | internal/pkg/daemon/bpfrecorder/containerprofiles.go:65-75 | The profile of the oldest remaining pair of the container |
| ContainerProfiles.Table.Delete | internal/pkg/daemon/bpfrecorder/containerprofiles.go:94-106 | Takes exactly the pairs of the container off the relation, keeping the order |
| ContainerProfiles.WithoutFirstCounts | internal/pkg/daemon/bpfrecorder/containerprofiles.go:94-106 | Every other pair stays as often as before |
| ContainerProfiles.WithoutFirstOrder | internal/pkg/daemon/bpfrecorder/containerprofiles.go:94-106 | What stays does so in its order |
| ContainerProfiles.Table.DeleteProfile | internal/pkg/daemon/bpfrecorder/containerprofiles.go:110-128 | Takes exactly the pairs of the profile off, and returns exactly the containers whose only profile it was, each once |
| ContainerProfiles.WithoutSecondCounts | internal/pkg/daemon/bpfrecorder/containerprofiles.go:110-128 | Every pair of another profile stays as often as before |
| ContainerProfiles.WithoutSecondOrder | internal/pkg/daemon/bpfrecorder/containerprofiles.go:110-128 | What stays does so in its order |
| ContainerProfiles.SingleIff | internal/pkg/daemon/bpfrecorder/containerprofiles.go:110-128 | A container's list is one profile exactly if the relation has that pair and no other of the container |
| ContainerProfiles.Table.Clear | internal/pkg/daemon/bpfrecorder/containerprofiles.go:131-137 | Empties the relation |
| ContainerProfiles.DropItem | internal/pkg/daemon/bpfrecorder/containerprofiles.go:94-128 | The loop takes an item off exactly the listed keys, leaves no empty list, and collects the emptied keys in order |
| ContainerProfiles.SecondsOldest | internal/pkg/daemon/bpfrecorder/containerprofiles.go:65-75 | The head of a projection belongs to the oldest pair of the key |
| ContainerProfiles.UnusedAreSingle | internal/pkg/daemon/bpfrecorder/containerprofiles.go:110-128 | The emptied keys are exactly the containers with that single profile |
| SyscallRecorder.Merge | internal/pkg/daemon/bpfrecorder/bpfrecorder_seccomp.go:79-117 | The merged buffer holds exactly the bits set under some readable key; there is none exactly if no key is readable |
| SyscallRecorder.MergeBits | internal/pkg/daemon/bpfrecorder/bpfrecorder_seccomp.go:95-117 | One bitmap is merged into the buffer in place |
| SyscallRecorder.Recorder.SyscallNameForId | internal/pkg/daemon/bpfrecorder/bpfrecorder_seccomp.go:156-177 | Cached or not, the answer is that of the direct lookup, and the cache stays sound |
| SyscallRecorder.Recorder.ConvertIds | internal/pkg/daemon/bpfrecorder/bpfrecorder_seccomp.go:137-154 | Exactly the names of the resolvable IDs that are set |
| SyscallRecorder.Recorder.Syscalls | internal/pkg/daemon/bpfrecorder/bpfrecorder_seccomp.go:79-132 | The ascending names of exactly the resolvable recorded IDs; not found exactly if every read was absent, failed exactly if none was readable otherwise |
| SyscallRecorder.KeyOrderIrrelevant | internal/pkg/daemon/bpfrecorder/bpfrecorder_seccomp.go:79-117 | For bitmaps of one length, order and repetition of keys do not matter, and an ID is recorded exactly if some readable key has it |
| SyscallRecorder.RecordedSpelled | internal/pkg/daemon/bpfrecorder/bpfrecorder_seccomp.go:79-117 | For bitmaps of one length an ID is recorded exactly if the bitmap read under some key has a one there |
| SyscallRecorder.ItoaInjective | internal/pkg/daemon/bpfrecorder/bpfrecorder_seccomp.go:156-177 | Two IDs never share a cache key |
| SyscallRecorder.CacheSoundInEveryRun | internal/pkg/daemon/bpfrecorder/bpfrecorder_seccomp.go:156-177 | In every interleaving of calls, each split into its cache read, foreign call and cache write, the cache agrees with the lookup and every finished call answered what the lookup says |
| SyscallRecorder.CallsConserved | internal/pkg/daemon/bpfrecorder/bpfrecorder_seccomp.go:156-177 | In every such run each call that started is in flight or has answered, none twice |
| SyscallRecorder.CallAnswers | internal/pkg/daemon/bpfrecorder/bpfrecorder_seccomp.go:156-177 | One call in its three steps answers what the lookup says, leaves the others in flight, and caches exactly a name that was found |
| ProfileUnion.SplitVariablePaths | internal/pkg/util/union_apparmor.go:137-176 | Splits a profile into its variable-free rest and its variable paths with the access each of them has |
| ProfileUnion.VariableSpelled | internal/pkg/util/union_apparmor.go:131-133 | A path references a variable exactly if it holds an at sign followed by an opening brace |
| ProfileUnion.SplitFiles | internal/pkg/util/union_apparmor.go:137-176 | One file list adds its access to each of its variable paths and keeps the others |
| ProfileUnion.UniteFiles | internal/pkg/util/union_apparmor.go:181-230 | Both access maps are joined path by path |
| ProfileUnion.AddFiles | internal/pkg/util/union_apparmor.go:181-230 | Each path is added once, to the one list of its access, and the three lists are sorted |
| ProfileUnion.AddVariablePaths | internal/pkg/util/union_apparmor.go:181-242 | The variable paths of both sides are added to the merged profile and nothing else changes |
| ProfileUnion.SortedFromAdded | internal/pkg/util/union_apparmor.go:181-242 | Which lists are sorted, in terms of the two profiles: those of a kind in which one of them has a variable path |
| ProfileUnion.UnionPtraceLeast | internal/pkg/util/union_apparmor.go:85-113 | The ptrace union grants what either side grants and is the least single rule that does |
| ProfileUnion.UnionPtraceCommutes | internal/pkg/util/union_apparmor.go:85-113 | It is commutative |
| ProfileUnion.UnionPtraceAssociates | internal/pkg/util/union_apparmor.go:85-113 | It is associative |
| ProfileUnion.UnionPtraceIdempotent | internal/pkg/util/union_apparmor.go:85-113 | It is idempotent in what it grants, and as a value exactly on non-empty sorted distinct accesses |
| ProfileUnion.LowerCapabilities | internal/pkg/util/union_apparmor.go:65-80 | The ascending list of exactly the lower-cased capabilities |
| ProfileUnion.UnionAppArmor | internal/pkg/util/union_apparmor.go:41-63 | For any merger that unites variable-free profiles: every path gets exactly the OR of both accesses, executables, libraries, network and lower-case capabilities are exactly those of either side, a variable path stands once in exactly one list, and the lists variable paths are added to are sorted |
| ProfileUnion.UnitesSpelled | internal/pkg/util/union_apparmor.go:41-63 | What uniting means rule by rule: a path can be read, or written, exactly if either side lists it for that, and so for each kind of network access |
| AllowList.CheckedActions | internal/pkg/seccompcheck/allow.go:80-94 | Fails exactly on an action that cannot be checked; without any, all checkable ones are checked |
| AllowList.CheckedSpelled | internal/pkg/seccompcheck/allow.go:80-94 | The checkable actions by name, and which of them a configuration checks |
| AllowList.AllowProfile | internal/pkg/seccompcheck/allow.go:98-139 | Accepts exactly the profiles whose checked actions are used only for allowed syscalls and not as default of a restricted list; each refusal names a defect the profile or the configuration has |
| AllowList.AllowedSpelled | internal/pkg/seccompcheck/allow.go:98-139 | What is accepted: only checkable actions configured, only allowed syscalls under checked actions, and no checked default action unless the list of syscalls is empty |
| AllowList.Drain | internal/pkg/seccompcheck/allow.go:217-245 | The counters end as the multiset difference, or some entry is missing and the lists differ |
| AllowList.DrainedIsEmpty | internal/pkg/seccompcheck/allow.go:217-245 | After draining a list of the same length nothing is left: the last length test never fires |
| AllowList.AllowListChanged | internal/pkg/seccompcheck/allow.go:217-245 | False exactly if the action sets and the syscall multisets are equal |
| AllowList.UnchangedKeepsVerdict | internal/pkg/seccompcheck/allow.go:98-139 | Then every profile gets the same verdict under both configurations |
| SeccompConvert.SyscallsToOci | internal/pkg/util/seccomp_convert.go:33-46 | The loop converts entry by entry, wrapping negative numbers to 64 bits |
| SeccompConvert.ConvertedSpelled | internal/pkg/util/seccomp_convert.go:33-95 | A representable syscall keeps names, action, operators, indexes and numbers, each in its field; no errno and no arguments become nil |
| SeccompConvert.ArgsToOci | internal/pkg/util/seccomp_convert.go:73-95 | Likewise for arguments, where no argument becomes nil |
| SeccompConvert.SyscallsFromOci | internal/pkg/util/seccomp_convert.go:48-71 | Fails exactly if an errno or index exceeds 2^31-1 or a value 2^63-1 anywhere in the list |
| SeccompConvert.ArgsFromOci | internal/pkg/util/seccomp_convert.go:100-130 | Fails exactly if an argument does not fit; otherwise converts each |
| SeccompConvert.ApiRoundTrip | internal/pkg/util/seccomp_convert.go:33-152 | To the runtime form and back is the identity exactly on lists without negative numbers and with every index set, which the API validation guarantees |
| SeccompConvert.OciRoundTrip | internal/pkg/util/seccomp_convert.go:33-152 | From the runtime form and back forgets an errno of zero and an empty argument list, and nothing else |
| Conditions.SetOneEffect | api/common/conditions.go:78-101 | Setting a condition keeps types unique and other entries in place, and preserves the transition time of an equal condition |
| Conditions.SetAllEffect | api/common/conditions.go:78-101 | Setting several keeps types unique, leaves types not supplied untouched, and yields exactly the union of the types |
| Conditions.LastSetWins | api/common/conditions.go:78-101 | The condition set last is the one found under its type |
| Conditions.GenerationEffect | api/common/generation.go:27-37 | An equal condition keeps its transition time and gets the new generation; a different one replaces it; others stay |
| Conditions.ConditionedStatus.SetConditions | api/common/conditions.go:78-101 | The update in place is the function the effects are proved of |
| Conditions.ConditionedStatus.SetConditionForGeneration | api/common/generation.go:27-37 | Likewise for the generation loop |
| Conditions.PairwiseIffMaps | api/common/conditions.go:105-138 | Lists sorted by distinct types agree pairwise exactly if their type to (status, reason, message) maps are equal |
| Conditions.ArrangementsAgreeIff | api/common/conditions.go:105-138 | All sorted arrangements of a list agree entry by entry if and only if its conditions of one type say the same |
| Conditions.CanBeEqualIff | api/common/conditions.go:105-138 | Some sort makes two lists compare equal if and only if they say the same, each thing as often |
| Conditions.CanBeUnequalIff | api/common/conditions.go:105-138 | Some sort makes them compare unequal exactly unless they say the same and conditions of one type do, too |
| Conditions.InconsistentIsUnequal | api/common/conditions.go:105-138 | A list whose conditions of one type differ can compare equal and unequal to itself |
| Conditions.Equal | api/common/conditions.go:105-138 | Whatever the unstable sort does, the answer is one some arrangement gives; where conditions of one type say the same it is whether the lists say the same, for distinct types whether the type to (status, reason, message) maps are equal; nil only equals nil |
| EventNote.PrefixValid | internal/pkg/util/events.go:72-83 | Cutting UTF-8 (section 4 of RFC 3629) at a byte that starts a character leaves valid UTF-8 |
| EventNote.StartNearby | internal/pkg/util/events.go:72-83 | At most three bytes back a character starts |
| EventNote.CharIff | internal/pkg/util/events.go:72-83 | The grammar of valid text takes for a character exactly the encoding (section 3 of RFC 3629) of a code point that is no surrogate |
| EventNote.TruncateEventNote | internal/pkg/util/events.go:72-83 | At most 1024 bytes, unchanged if it fits, otherwise cut at the last character start that leaves room for the suffix; valid UTF-8 stays valid and keeps at least 1021 bytes |
| Platforms.DefaultNameIsEmpty | internal/pkg/artifact/artifact.go:1318-1339 | A platform gets the default file name exactly if all of its parts are empty |
| Platforms.NameSpelled | internal/pkg/artifact/artifact.go:1318-1339 | The layer name in characters: the parts that are not empty, in order, each behind a dash |
| Platforms.MatchesIff | internal/pkg/artifact/artifact.go:986-1013 | Platforms match exactly if they are equal but for a default variant: none and v8 for arm64, none and v7 for arm, none and v1 for amd64 |
| Platforms.ParsePlatform | internal/pkg/cli/platform.go:35-72 | The switch with fallthrough computes the parse the round trip is about |
| Platforms.ParseSpelled | internal/pkg/cli/platform.go:35-72 | What each form of the argument parses to, with one to four parts and a version, and which default stands in for a missing part |
| Platforms.ParsedIsPrintable | internal/pkg/cli/platform.go:35-72 | Everything that parses can be printed without loss |
| Platforms.ParseUndoesPrint | internal/pkg/artifact/artifact.go:1342-1369 | Parsing undoes printing exactly for platforms with an operating system and an architecture whose parts hold no separator, with any version |
| Platforms.PrintedSpelled | internal/pkg/artifact/artifact.go:1342-1369 | The printed platform in characters |
| ArtifactLayers.ProfileEntries | internal/pkg/artifact/artifact.go:794-857 | The layers are a permutation of the files' entries sorted by title, and the runtime format files are counted |
| ArtifactLayers.AddToStore | vendor/oras.land/oras-go/v2/content/file/file.go:400-418 | The store takes all entries exactly if their names are distinct, and otherwise names a repeated one |
| ArtifactLayers.PackProfiles | internal/pkg/artifact/artifact.go:448-527 | Each refusal is returned exactly for its defect: mixed formats, several runtime format profiles, a repeated layer name; otherwise the manifest holds exactly the entries |
| ArtifactLayers.LayerOrderFixed | internal/pkg/artifact/artifact.go:794-857 | With distinct titles the layer order does not depend on the iteration order of the map |
| ArtifactLayers.SelectLayer | internal/pkg/artifact/artifact.go:913-970 | The loops meet the specification `SelectSpelled` and `PushThenSelect` are about, and outside runtime format never choose a layer of another platform |
| ArtifactLayers.SelectSpelled | internal/pkg/artifact/artifact.go:913-970 | Which layer of any manifest a pull gets: the one of the platform, else the default YAML one, else the default JSON one, else the only one unless it is bound to or named for a platform; and each error exactly for its cause |
| ArtifactLayers.QualifiedIff | internal/pkg/artifact/consts.go:172-176 | The titles named for a platform: a fixed start and end around at least one character, without a line break |
| ArtifactLayers.NeverForeign | internal/pkg/artifact/artifact.go:975-1013 | For any manifest, a chosen layer bound to a platform matches the request |
| ArtifactLayers.SelectFindsPushed | internal/pkg/artifact/artifact.go:913-970 | Among layers of distinct titles a pull gets the one file pushed for the platform, else the one unbound file, else an error |
| ArtifactLayers.PushSucceedsIff | internal/pkg/artifact/artifact.go:448-527 | Files of pairwise non-matching platforms are pushed exactly if no two of them get one layer name |
| ArtifactLayers.SharedNameRefused | internal/pkg/artifact/artifact.go:1318-1339 | A variant and a version of the same text give two platforms that do not match one layer name, so their push is refused |
| ArtifactLayers.PushThenSelect | internal/pkg/artifact/artifact.go:794-970 | After every successful push of profiles of pairwise non-matching platforms every pull gets the expected file if and only if there are 1 to 128 of them |
| ArtifactLayers.RuntimeFormatServesAll | internal/pkg/artifact/artifact.go:913-970 | A pushed runtime format profile is served to every platform, as a layer bound to none |
| ArtifactLayers.DefaultVariantServed | internal/pkg/artifact/artifact.go:983-1013 | A profile pushed for linux/arm64 is served to linux/arm64/v8, and the other way round |

## Left out

- FinalizerProtocol.ProtocolSafeIffSeparate: a node that only ever held the legacy finalizer of an earlier release makes no claim, as internal/pkg/nodestatus/nodestatus.go:340-344 documents; other writers never take off a node's finalizer, and a crash either drops a request or lets it finish.
- AppArmorHost.OperatorRefusedIff: a failure to migrate a legacy finalizer counts as a failed existence check, and profiles bundled with the operator are not modelled.
- RawPolicy.Scan: parentheses are counted as characters, as in the source; CIL comments and quoted strings have no meaning of their own, and texts are character sequences, hence valid UTF-8.
- CilRoundTrip.TextMeansProfile: the reader knows the statements the translator writes, and neither comments nor quotes.
- ProfileUnion.UnionAppArmor: the difference between a nil and an empty list or rule is not modelled; ptrace peers are literal names.
- ArtifactLayers.PackProfiles: reading and validating the files, and other failures of the file store, are not modelled.
- SeccompConvert.ApiRoundTrip: a nil and an empty argument list of the API are one value.
- AppArmorHost.ForeignProfilesAreSpared: a reconcile is one atomic step with respect to the host; a file somebody creates between its read and its write of the policy file is not modelled.
- ClusterHosts.ClusterGuardedIffSeparate: the profile is not partial, its object starts without finalizers of the nodes, and only the operator changes the hosts.
- Locks: a locked method is one atomic step.
- SHA-256, Unicode tables, libseccomp and the AppArmor policy generator are parameters.
- Labels, metrics, events and log output.
- Command line front ends, registry access, signing and BPF loading.
- Selection among the manifests of an image index, and annotations of a manifest other than layer titles.
- Profile bindings, the webhook and the recording controller.
