/**
 Which AppArmor policies on a host belong to the operator. The host is the
 policy file at the managed location and the policy loaded into the kernel
 under the profile's name; file writes are atomic. The policy generated from a
 spec is an input, as are the failures of every file, kernel and API call.
 */
module AppArmorHost {

  import opened Wrappers

  const MARKER := "# Managed by security-profiles-operator. Do not edit.\n"
  const RUNTIME_PROFILES := ["cri-containerd.apparmor.d", "crio-default", "docker-default"]
  const RUNTIME_PREFIXES := ["containers-default-", "crio-default-"]

  predicate IsRuntimeProfile(name: string) {
    name in RUNTIME_PROFILES || exists i | 0 <= i < |RUNTIME_PREFIXES| :: RUNTIME_PREFIXES[i] <= name
  }

  datatype Host = Host(file: Option<string>, loaded: Option<string>)

  const CLEAN := Host(None, None)

  predicate Marked(content: string) {
    MARKER <= content
  }

  // ---------------------------------------------------------------- installing

  /** Which calls of an installation fail, and whether the policy defines the profile's name. */
  datatype InstallIo = InstallIo(
    existsUnknown: bool,   // the loaded policies cannot be listed: assumed to exist
    markerUnknown: bool,   // the policy file cannot be looked at: assumed not managed
    readFails: bool,       // the host cannot be entered, or the policy file not be read
    firstCheckFails: bool,
    writeFails: bool,
    loadFails: bool,       // the kernel keeps the policy it had
    definesName: bool,
    secondCheckFails: bool,
    restoreFails: bool)

  datatype InstallOutcome =
    | Unchanged | Updated
    | ReservedName | ProfileExists | HostPolicyFile   // refused: not ours
    | CannotGenerate | IoError | NotLoaded {

    predicate Ok() { Unchanged? || Updated? }

    predicate RefusedOwnership() { ProfileExists? || HostPolicyFile? }
  }

  /** loadPolicyFile: write the policy and load it, or put the previous file back. */
  function Load(h: Host, content: string, owned: bool, io: InstallIo): (Host, InstallOutcome) {
    var policy := MARKER + content;
    if io.readFails then (h, IoError)
    else if h.file.Some? && !owned && !Marked(h.file.value) && h.file.value != content then (h, HostPolicyFile)
    else if h.file == Some(policy) && io.firstCheckFails then (h, IoError)
    else if h.file == Some(policy) && h.loaded.Some? then (h, Unchanged)
    else if io.writeFails then (h, IoError)
    else
      var written := h.(file := Some(policy));
      var restored := if io.restoreFails then Some(policy) else h.file;
      if io.loadFails then (written.(file := restored), IoError)
      else
        var loaded := if io.definesName then Some(policy) else h.loaded;
        if io.secondCheckFails then (Host(restored, loaded), IoError)
        else if loaded.None? then (Host(restored, loaded), NotLoaded)
        else (Host(Some(policy), loaded), Updated)
  }

  predicate ManagedByUs(h: Host, io: InstallIo) {
    !io.markerUnknown && h.file.Some? && Marked(h.file.value)
  }

  function Install(h: Host, name: string, policy: Option<string>, owned: bool, io: InstallIo)
    : (Host, InstallOutcome)
  {
    if IsRuntimeProfile(name) then (h, ReservedName)
    else if (io.existsUnknown || h.loaded.Some?) && !owned && !ManagedByUs(h, io) then (h, ProfileExists)
    else if policy.None? then (h, CannotGenerate)
    else Load(h, policy.value, owned, io)
  }

  // ---------------------------------------------------------------- removing

  datatype RemoveIo = RemoveIo(
    mountFails: bool,      // the host cannot be entered
    unreadable: bool,      // it cannot be told whether there is a policy file, or what it holds
    checkFails: bool,
    unloadFails: bool,
    removeFails: bool)

  datatype RemoveOutcome = Removed | NotOurs | Failed

  predicate PolicyFileOwned(h: Host, policy: Option<string>, owned: bool, io: RemoveIo) {
    !io.unreadable &&
    match h.file
    case None => owned
    case Some(content) => Marked(content) || (policy.Some? && policy.value != "" && content == policy.value)
  }

  function Remove(h: Host, policy: Option<string>, owned: bool, io: RemoveIo): (Host, RemoveOutcome) {
    if io.mountFails then (h, Failed)
    else if !PolicyFileOwned(h, policy, owned, io) then (h, NotOurs)
    else if io.checkFails then (h, Failed)
    else if h.loaded.Some? && io.unloadFails then (h, Failed)
    else if io.removeFails then (h.(loaded := None), Failed)
    else (CLEAN, Removed)
  }

  // ---------------------------------------------------------------- host level results

  /** Only the operator's own policy file is left in the managed location. */
  predicate OursOnly(h: Host) {
    h.file.Some? ==> Marked(h.file.value)
  }

  /** A loaded policy without a file: nothing on the host says whose it is. */
  predicate Stranded(h: Host) {
    h.file.None? && h.loaded.Some?
  }

  lemma {:induction false} MarkerMarks(content: string)
    ensures Marked(MARKER + content)
  {
  }

  /** A failed installation leaves the file as it was; if the load itself failed, the kernel too. */
  lemma {:induction false} FailedInstallRestores(h: Host, name: string, policy: Option<string>, owned: bool,
                                                 io: InstallIo)
    requires !io.restoreFails && !Install(h, name, policy, owned, io).1.Ok()
    ensures Install(h, name, policy, owned, io).0.file == h.file
    ensures io.loadFails || !io.definesName ==> Install(h, name, policy, owned, io).0 == h
  {
  }

  /** Repeating a successful installation never changes the host, whatever fails the second time. */
  lemma {:induction false} InstallIdempotent(h: Host, name: string, policy: Option<string>, owned: bool, io: InstallIo,
                          owned': bool, io': InstallIo)
    requires Install(h, name, policy, owned, io).1.Ok()
    ensures var h1 := Install(h, name, policy, owned, io).0;
            && h1.file == Some(MARKER + policy.value) && h1.loaded.Some?
            && Install(h1, name, policy, owned', io').0 == h1
            && (!io'.markerUnknown && !io'.readFails && !io'.firstCheckFails ==>
                  Install(h1, name, policy, owned', io').1 == Unchanged)
  {
    MarkerMarks(policy.value);
  }

  /** Installing on a clean host and removing again restores the clean host. */
  lemma {:induction false} InstallThenRemove(name: string, policy: Option<string>, policy': Option<string>,
                          owned: bool, owned': bool, io: InstallIo, io': RemoveIo)
    requires Install(CLEAN, name, policy, owned, io).1.Ok() && !io'.unreadable
    ensures var (h, r) := Remove(Install(CLEAN, name, policy, owned, io).0, policy', owned', io');
            r != NotOurs && (r == Removed ==> h == CLEAN)
  {
    MarkerMarks(policy.value);
  }

  /** The names of container runtimes' profiles, which are never installed over. */
  lemma {:induction false} ReservedSpelled(h: Host, name: string, policy: Option<string>, owned: bool, io: InstallIo)
    ensures Install(h, name, policy, owned, io).1 == ReservedName <==>
            || name in {"cri-containerd.apparmor.d", "crio-default", "docker-default"}
            || "containers-default-" <= name || "crio-default-" <= name
    ensures Install(h, name, policy, owned, io).1 == ReservedName ==> Install(h, name, policy, owned, io).0 == h
  {
    assert RUNTIME_PREFIXES[0] == "containers-default-" && RUNTIME_PREFIXES[1] == "crio-default-";
  }

  /**
   A file without the marker, as releases before the marker wrote it: an
   installation is refused as not ours exactly if there is no evidence and
   either a policy is or may be loaded or the file is not the generated policy.
   One that is not refused and meets no failure leaves the marked policy in
   file and kernel.
   */
  lemma {:induction false} UnmarkedInstall(h: Host, name: string, policy: string, owned: bool, io: InstallIo)
    requires h.file.Some? && !(MARKER <= h.file.value) && !IsRuntimeProfile(name) && !io.readFails
    ensures var (h', r) := Install(h, name, Some(policy), owned, io);
            && (r in {ProfileExists, HostPolicyFile} <==>
                !owned && (io.existsUnknown || h.loaded.Some? || h.file.value != policy))
            && (r in {ProfileExists, HostPolicyFile} ==> h' == h)
            && (r !in {ProfileExists, HostPolicyFile} && !io.writeFails && !io.loadFails && !io.secondCheckFails
                && io.definesName ==>
                  h' == Host(Some(MARKER + policy), Some(MARKER + policy)) && r == Updated)
  {
    MarkerMarks(policy);
  }

  /**
   Removing with such a file: it is taken for somebody else's exactly if it is
   not the generated policy, whatever the evidence. Otherwise a removal that
   meets no failure leaves nothing.
   */
  lemma {:induction false} UnmarkedRemove(h: Host, policy: Option<string>, owned: bool, io: RemoveIo)
    requires h.file.Some? && !(MARKER <= h.file.value) && !io.mountFails && !io.unreadable
    ensures var (h', r) := Remove(h, policy, owned, io);
            && (r == NotOurs <==> policy.None? || policy.value == "" || h.file.value != policy.value)
            && (r == NotOurs ==> h' == h)
            && (r != NotOurs && !io.checkFails && !io.unloadFails && !io.removeFails ==> h' == CLEAN && r == Removed)
  {
  }

  /** No evidence, a policy that is or may be loaded, and no file that is seen to be marked. */
  predicate RefusalGuard(h: Host, owned: bool, io: InstallIo) {
    !owned && (io.existsUnknown || h.loaded.Some?) && (h.file.None? || io.markerUnknown)
  }

  /** On a host with only the operator's file, exactly when an installation is refused as not ours. */
  lemma {:induction false} InstallRefusedIff(h: Host, name: string, policy: Option<string>, owned: bool, io: InstallIo)
    requires OursOnly(h) && !IsRuntimeProfile(name)
    ensures Install(h, name, policy, owned, io).1.RefusedOwnership() <==> RefusalGuard(h, owned, io)
  {
  }

  /** Something is on the host, and the removal takes it for somebody else's. */
  predicate Mistaken(h: Host, owned: bool, io: RemoveIo) {
    h != CLEAN && (io.unreadable || (h.file.None? && !owned))
  }

  /** On such a host, exactly when a removal that does not fail leaves nothing. */
  lemma {:induction false} RemoveCleansIff(h: Host, policy: Option<string>, owned: bool, io: RemoveIo)
    requires OursOnly(h) && Remove(h, policy, owned, io).1 != Failed
    ensures Remove(h, policy, owned, io).0 == CLEAN <==> !Mistaken(h, owned, io)
    ensures Mistaken(h, owned, io) ==> Remove(h, policy, owned, io) == (h, NotOurs)
  {
  }

  // ---------------------------------------------------------------- the node's state machine

  datatype ProfileState = Unset | Pending | InProgress | Installed | Partial | Disabled | Terminating | Error

  /** This node's status of the profile; `installed` is the installed annotation. */
  datatype Status = Status(state: ProfileState, installed: bool)

  /**
   Everything a reconcile reads or writes: the host, this node's finalizer on
   the profile, the finalizer shared by partial profiles, the node status and
   the status an earlier release left.
   */
  datatype Node = Node(
    host: Host,
    finalizer: bool,
    partialFinalizer: bool,
    status: Option<Status>,
    legacy: Option<ProfileState>)

  /** The profile as the reconcile reads it. `policy` is what its spec generates. */
  datatype Spec = Spec(policy: Option<string>, disabled: bool, partial: bool, deleting: bool, inUse: bool)

  /** Which API calls of a reconcile fail. */
  datatype ApiIo = ApiIo(
    existsFails: bool, finalizerFails: bool, labelFails: bool, legacyFails: bool, createFails: bool,
    stateWriteFails: bool, stateReadFails: bool, annotationReadFails: bool, annotationFails: bool,
    removeFinalizerFails: bool, removeStatusFails: bool)

  datatype Io = Io(api: ApiIo, install: InstallIo, remove: RemoveIo)

  predicate FinalizerExists(n: Node, spec: Spec) {
    if spec.partial then n.partialFinalizer else n.finalizer
  }

  function WithFinalizer(n: Node, spec: Spec, present: bool): Node {
    if spec.partial then n.(partialFinalizer := present) else n.(finalizer := present)
  }

  predicate Exists(n: Node, spec: Spec) {
    n.status.Some? && FinalizerExists(n, spec)
  }

  function InitialState(spec: Spec, legacy: Option<ProfileState>): ProfileState {
    if spec.disabled then Disabled
    else if spec.partial then Partial
    else if legacy.Some? && legacy.value != Unset then legacy.value
    else Pending
  }

  /** StatusClient.Create: the finalizer first, then the status, which inherits a legacy state. */
  function CreateStatus(n: Node, spec: Spec, io: ApiIo): Node {
    if io.finalizerFails then n
    else
      var n1 := WithFinalizer(n, spec, true);
      if io.labelFails then n1
      else
        var legacy := if io.legacyFails then None else n1.legacy;
        var n2 := if io.legacyFails then n1 else n1.(legacy := None);
        if io.createFails then n2
        else
          var before := if n2.status.Some? then n2.status.value else Status(Unset, false);
          n2.(status := Some(if io.stateWriteFails then before
                             else before.(state := InitialState(spec, legacy))))
  }

  /** handleDeletion: the installed annotation is the evidence the removal gets. */
  function HandleDeletion(n: Node, spec: Spec, io: Io): (Node, bool) {
    if io.api.annotationReadFails then (n, false)
    else
      var owned := n.status.Some? && n.status.value.installed;
      var (h, r) := Remove(n.host, spec.policy, owned, io.remove);
      (n.(host := h), r != Failed)
  }

  function ReconcileDeletion(n: Node, spec: Spec, io: Io): Node {
    if !FinalizerExists(n, spec) || io.api.existsFails then n
    else if n.status.Some? && io.api.stateReadFails then n
    else if n.status.Some? && n.status.value.state != Terminating then
      if io.api.stateWriteFails then n else n.(status := Some(n.status.value.(state := Terminating)))
    else if spec.inUse then n
    else
      var (n1, ok) := HandleDeletion(n, spec, io);
      if !ok || io.api.removeFinalizerFails then n1
      else
        var n2 := WithFinalizer(n1, spec, false);
        if io.api.removeStatusFails then n2 else n2.(status := None)
  }

  function ReconcileDisabled(n: Node, spec: Spec, io: Io): Node
    requires n.status.Some?
  {
    if io.api.stateReadFails || n.status.value.state == Disabled || spec.inUse then n
    else
      var (n1, ok) := HandleDeletion(n, spec, io);
      if !ok || io.api.annotationFails then n1
      else
        var n2 := n1.(status := Some(n.status.value.(installed := false)));
        if io.api.stateWriteFails then n2 else n2.(status := Some(Status(Disabled, false)))
  }

  function ReconcileInstall(n: Node, name: string, spec: Spec, io: Io): Node
    requires n.status.Some?
  {
    if io.api.stateReadFails then n
    else
      var (h, r) := Install(n.host, name, spec.policy, n.status.value.state == Installed, io.install);
      var n1 := n.(host := h);
      if !r.Ok() || io.api.annotationFails then n1
      else
        var n2 := n1.(status := Some(n.status.value.(installed := true)));
        if io.api.stateWriteFails then n2 else n2.(status := Some(Status(Installed, true)))
  }

  /** reconcileAppArmorProfile. */
  function Reconcile(n: Node, name: string, spec: Spec, io: Io): Node {
    if spec.deleting then ReconcileDeletion(n, spec, io)
    else if io.api.existsFails then n
    else if !Exists(n, spec) then CreateStatus(n, spec, io.api)
    else if spec.partial then n
    else if spec.disabled then ReconcileDisabled(n, spec, io)
    else ReconcileInstall(n, name, spec, io)
  }

  datatype Event =
    | Reconciled(spec: Spec, io: Io)
    | HostChanged(host: Host)          // an admin, a distribution or a runtime
    | PartialFinalizerTaken            // another node removes the shared finalizer

  function Step(n: Node, name: string, e: Event): Node {
    match e
    case Reconciled(spec, io) => Reconcile(n, name, spec, io)
    case HostChanged(h) => n.(host := h)
    case PartialFinalizerTaken => n.(partialFinalizer := false)
  }

  function Run(n: Node, name: string, trace: seq<Event>): Node
    decreases |trace|
  {
    if trace == [] then n else Run(Step(n, name, trace[0]), name, trace[1..])
  }

  lemma {:induction false} RunAppend(n: Node, name: string, trace: seq<Event>, e: Event)
    ensures Run(n, name, trace + [e]) == Step(Run(n, name, trace), name, e)
    decreases |trace|
  {
    if trace == [] {
      assert [e][1..] == [];
    } else {
      assert (trace + [e])[0] == trace[0] && (trace + [e])[1..] == trace[1..] + [e];
      RunAppend(Step(n, name, trace[0]), name, trace[1..], e);
    }
  }

  // ---------------------------------------------------------------- the host's own profiles

  /** A file that is neither marked nor one of the generated policies, or a policy without a file. */
  predicate Foreign(h: Host, policies: set<string>) {
    match h.file
    case Some(content) => !Marked(content) && content !in policies
    case None => h.loaded.Some?
  }

  /** Nothing in the API claims that this operator installed the profile here. */
  predicate NoEvidence(n: Node) {
    && (n.status.Some? ==> n.status.value.state != Installed && !n.status.value.installed)
    && n.legacy != Some(Installed)
  }

  predicate KeepsForeign(e: Event, policies: set<string>) {
    match e
    case Reconciled(spec, _) => spec.policy.Some? ==> spec.policy.value in policies
    case HostChanged(h) => Foreign(h, policies)
    case PartialFinalizerTaken => true
  }

  /** The host as everybody but the operator left it. */
  function HostOnly(h: Host, trace: seq<Event>): Host
    decreases |trace|
  {
    if trace == [] then h
    else HostOnly(if trace[0].HostChanged? then trace[0].host else h, trace[1..])
  }

  lemma {:induction false} InstallSparesForeign(h: Host, name: string, policy: Option<string>, io: InstallIo,
                                                policies: set<string>)
    requires Foreign(h, policies) && (policy.Some? ==> policy.value in policies)
    ensures Install(h, name, policy, false, io).0 == h && !Install(h, name, policy, false, io).1.Ok()
  {
  }

  lemma {:induction false} DeletionSparesForeign(n: Node, spec: Spec, io: Io, policies: set<string>)
    requires Foreign(n.host, policies) && NoEvidence(n)
    requires spec.policy.Some? ==> spec.policy.value in policies
    ensures HandleDeletion(n, spec, io).0 == n
  {
    assert !PolicyFileOwned(n.host, spec.policy, false, io.remove);
  }

  lemma {:induction false} ReconcileSparesForeign(n: Node, name: string, spec: Spec, io: Io, policies: set<string>)
    requires Foreign(n.host, policies) && NoEvidence(n)
    requires spec.policy.Some? ==> spec.policy.value in policies
    ensures Reconcile(n, name, spec, io).host == n.host && NoEvidence(Reconcile(n, name, spec, io))
  {
    DeletionSparesForeign(n, spec, io, policies);
    InstallSparesForeign(n.host, name, spec.policy, io.install, policies);
    if spec.deleting {
      assert Reconcile(n, name, spec, io) == ReconcileDeletion(n, spec, io);
    } else if io.api.existsFails || !Exists(n, spec) {
      assert Reconcile(n, name, spec, io) in {n, CreateStatus(n, spec, io.api)};
    } else if spec.disabled {
      assert Reconcile(n, name, spec, io) in {n, ReconcileDisabled(n, spec, io)};
    }
  }

  /**
   Over every run of reconciles with any specs and failures, a foreign file or
   a policy loaded without a file is never rewritten, unloaded or deleted, and
   no claim of ownership ever appears.
   */
  lemma {:induction false} ForeignProfilesAreSpared(n: Node, name: string, trace: seq<Event>, policies: set<string>)
    requires Foreign(n.host, policies) && NoEvidence(n)
    requires forall e | e in trace :: KeepsForeign(e, policies)
    ensures Run(n, name, trace).host == HostOnly(n.host, trace)
    ensures NoEvidence(Run(n, name, trace))
    decreases |trace|
  {
    if trace != [] {
      var n1 := Step(n, name, trace[0]);
      assert KeepsForeign(trace[0], policies);
      if trace[0].Reconciled? {
        ReconcileSparesForeign(n, name, trace[0].spec, trace[0].io, policies);
      }
      ForeignProfilesAreSpared(n1, name, trace[1..], policies);
    }
  }

  // ---------------------------------------------------------------- the operator alone

  /** Nothing of the profile on the node, in the API or on the host. */
  predicate Untouched(n: Node) {
    n.host == CLEAN && n.status.None? && n.legacy.None? && !n.finalizer && !n.partialFinalizer
  }

  predicate OperatorOnly(trace: seq<Event>) {
    forall e | e in trace :: !e.HostChanged?
  }

  function Generated(spec: Spec): string
    requires spec.policy.Some?
  {
    MARKER + spec.policy.value
  }

  /** The annotation that this operator installed the profile here. */
  predicate Evidence(n: Node) {
    n.status.Some? && n.status.value.installed
  }

  /** The reconcile gets as far as InstallProfile. */
  predicate ReachesInstall(n: Node, spec: Spec, io: Io) {
    && !spec.deleting && !io.api.existsFails && Exists(n, spec)
    && !spec.partial && !spec.disabled && !io.api.stateReadFails
  }

  /** The installation gets as far as writing the policy file. */
  predicate Writes(n: Node, name: string, spec: Spec, io: Io) {
    && ReachesInstall(n, spec, io) && !IsRuntimeProfile(name) && spec.policy.Some?
    && !RefusalGuard(n.host, n.status.value.state == Installed, io.install)
    && !io.install.readFails && !io.install.writeFails
    && (n.host.file == Some(Generated(spec)) ==> !io.install.firstCheckFails && n.host.loaded.None?)
  }

  predicate Loads(io: InstallIo) {
    !io.loadFails && io.definesName
  }

  /** The file that was written is not taken back. */
  predicate Stays(h: Host, io: InstallIo) {
    io.restoreFails || (!io.loadFails && !io.secondCheckFails && (io.definesName || h.loaded.Some?))
  }

  /** The reconcile gets as far as RemoveProfile, to delete or to disable the profile. */
  predicate ReachesRemove(n: Node, spec: Spec, io: Io) {
    && !io.api.existsFails && !spec.inUse && !io.api.annotationReadFails
    && if spec.deleting then
         FinalizerExists(n, spec)
         && (n.status.Some? ==> !io.api.stateReadFails && n.status.value.state == Terminating)
       else
         Exists(n, spec) && !spec.partial && spec.disabled
         && !io.api.stateReadFails && n.status.value.state != Disabled
  }

  /** The removal gets as far as having the policy out of the kernel. */
  predicate Unloads(n: Node, spec: Spec, io: Io) {
    && ReachesRemove(n, spec, io)
    && !io.remove.mountFails && !io.remove.unreadable && (n.host.file.Some? || Evidence(n))
    && !io.remove.checkFails && !(n.host.loaded.Some? && io.remove.unloadFails)
  }

  /** What a reconcile makes of a host with only the operator's file. */
  function NextHost(n: Node, name: string, spec: Spec, io: Io): Host {
    if Writes(n, name, spec, io) then
      Host(if Stays(n.host, io.install) then Some(Generated(spec)) else n.host.file,
           if Loads(io.install) then Some(Generated(spec)) else n.host.loaded)
    else if Unloads(n, spec, io) then Host(if io.remove.removeFails then n.host.file else None, None)
    else n.host
  }

  lemma {:induction false} InstallOnHost(n: Node, name: string, spec: Spec, io: Io)
    requires OursOnly(n.host) && ReachesInstall(n, spec, io)
    ensures Install(n.host, name, spec.policy, n.status.value.state == Installed, io.install).0
         == NextHost(n, name, spec, io)
  {
  }

  lemma {:induction false} RemoveOnHost(n: Node, name: string, spec: Spec, io: Io)
    requires OursOnly(n.host) && ReachesRemove(n, spec, io)
    ensures Remove(n.host, spec.policy, Evidence(n), io.remove).0 == NextHost(n, name, spec, io)
  {
  }

  lemma {:induction false} ReconcileOnHost(n: Node, name: string, spec: Spec, io: Io)
    requires OursOnly(n.host)
    ensures Reconcile(n, name, spec, io).host == NextHost(n, name, spec, io)
    ensures OursOnly(Reconcile(n, name, spec, io).host)
  {
    if ReachesInstall(n, spec, io) {
      InstallOnHost(n, name, spec, io);
    } else if ReachesRemove(n, spec, io) {
      RemoveOnHost(n, name, spec, io);
    }
    if spec.policy.Some? {
      MarkerMarks(spec.policy.value);
    }
  }

  lemma {:induction false} OwnFilesAreMarked(n: Node, name: string, trace: seq<Event>)
    requires OursOnly(n.host) && OperatorOnly(trace)
    ensures OursOnly(Run(n, name, trace).host)
    decreases |trace|
  {
    if trace != [] {
      assert !trace[0].HostChanged?;
      if trace[0].Reconciled? {
        ReconcileOnHost(n, name, trace[0].spec, trace[0].io);
      }
      OwnFilesAreMarked(Step(n, name, trace[0]), name, trace[1..]);
    }
  }

  lemma {:induction false} RunNext(n: Node, name: string, trace: seq<Event>, k: nat)
    requires k < |trace|
    ensures Run(n, name, trace[..k + 1]) == Step(Run(n, name, trace[..k]), name, trace[k])
  {
    assert trace[..k + 1] == trace[..k] + [trace[k]];
    RunAppend(n, name, trace[..k], trace[k]);
  }

  /** The host before and after step k. */
  lemma {:induction false} StepOnHost(n: Node, name: string, trace: seq<Event>, k: nat)
    requires OursOnly(n.host) && OperatorOnly(trace) && k < |trace|
    ensures var at := Run(n, name, trace[..k]);
            OursOnly(at.host) && Run(n, name, trace[..k + 1]).host ==
              if trace[k].Reconciled? then NextHost(at, name, trace[k].spec, trace[k].io) else at.host
  {
    OwnFilesAreMarked(n, name, trace[..k]);
    RunNext(n, name, trace, k);
    assert trace[k] in trace;
    if trace[k].Reconciled? {
      ReconcileOnHost(Run(n, name, trace[..k]), name, trace[k].spec, trace[k].io);
    }
  }

  // ---------------------------------------------------------------- stranded policies

  /** The policy is loaded where there was no file, and the file is taken back. */
  predicate StrandsAt(n: Node, name: string, trace: seq<Event>, k: nat)
    requires k < |trace|
  {
    && trace[k].Reconciled?
    && var at, io := Run(n, name, trace[..k]), trace[k].io.install;
       Writes(at, name, trace[k].spec, trace[k].io) && at.host.file.None? && Loads(io) && !Stays(at.host, io)
  }

  /** The file is written for good, or the policy unloaded. */
  predicate RecoversAt(n: Node, name: string, trace: seq<Event>, k: nat)
    requires k < |trace|
  {
    && trace[k].Reconciled?
    && var at, io := Run(n, name, trace[..k]), trace[k].io;
       || (Writes(at, name, trace[k].spec, io) && Stays(at.host, io.install))
       || Unloads(at, trace[k].spec, io)
  }

  /** An earlier step stranded the policy, and no step after it recovered it. */
  ghost predicate StrandedSince(n: Node, name: string, trace: seq<Event>, k: nat)
    requires k <= |trace|
  {
    exists i | 0 <= i < k :: StrandsAt(n, name, trace, i) && forall j | i < j < k :: !RecoversAt(n, name, trace, j)
  }

  lemma {:induction false} StrandingStep(n: Node, name: string, trace: seq<Event>, k: nat)
    requires OursOnly(n.host) && OperatorOnly(trace) && k < |trace|
    ensures var before, after := Run(n, name, trace[..k]).host, Run(n, name, trace[..k + 1]).host;
            && (StrandsAt(n, name, trace, k) ==> Stranded(after))
            && (Stranded(after) ==> Stranded(before) || StrandsAt(n, name, trace, k))
            && (Stranded(before) ==> (Stranded(after) <==> !RecoversAt(n, name, trace, k)))
  {
    StepOnHost(n, name, trace, k);
  }

  lemma {:induction false} StrandedSinceNext(n: Node, name: string, trace: seq<Event>, k: nat)
    requires k < |trace|
    ensures StrandedSince(n, name, trace, k + 1) <==>
            StrandsAt(n, name, trace, k) || (StrandedSince(n, name, trace, k) && !RecoversAt(n, name, trace, k))
  {
    if StrandedSince(n, name, trace, k) && !RecoversAt(n, name, trace, k) {
      var i :| 0 <= i < k && StrandsAt(n, name, trace, i) && forall j | i < j < k :: !RecoversAt(n, name, trace, j);
      assert forall j | i < j < k + 1 :: !RecoversAt(n, name, trace, j);
    }
    if StrandedSince(n, name, trace, k + 1) && !StrandsAt(n, name, trace, k) {
      var i :| 0 <= i < k + 1 && StrandsAt(n, name, trace, i)
               && forall j | i < j < k + 1 :: !RecoversAt(n, name, trace, j);
      assert i < k && forall j | i < j < k :: !RecoversAt(n, name, trace, j);
    }
  }

  /** After every run of the operator alone, exactly when a policy is loaded without a file. */
  lemma {:induction false} StrandedIff(n: Node, name: string, trace: seq<Event>, k: nat)
    requires OursOnly(n.host) && !Stranded(n.host) && OperatorOnly(trace) && k <= |trace|
    ensures Stranded(Run(n, name, trace[..k]).host) <==> StrandedSince(n, name, trace, k)
    decreases k
  {
    if k > 0 {
      StrandedIff(n, name, trace, k - 1);
      StrandingStep(n, name, trace, k - 1);
      StrandedSinceNext(n, name, trace, k - 1);
    }
  }

  // ---------------------------------------------------------------- refused installations

  /** The installation of step k is refused as not ours. */
  predicate RefusedAt(n: Node, name: string, trace: seq<Event>, k: nat)
    requires k < |trace|
  {
    && trace[k].Reconciled?
    && var at, spec, io := Run(n, name, trace[..k]), trace[k].spec, trace[k].io;
       ReachesInstall(at, spec, io)
       && Install(at.host, name, spec.policy, at.status.value.state == Installed, io.install).1.RefusedOwnership()
  }

  /** What cannot be looked up is assumed to be somebody else's. */
  predicate LookupMisleads(h: Host, io: InstallIo) {
    || (io.existsUnknown && (h.file.None? || io.markerUnknown))
    || (io.markerUnknown && h.loaded.Some?)
  }

  /**
   In every run of the operator alone from an untouched node, exactly when the
   operator refuses its own profile: the state is not Installed, and either a
   lookup fails or an earlier step stranded the policy.
   */
  lemma {:induction false} OperatorRefusedIff(n: Node, name: string, trace: seq<Event>, k: nat)
    requires Untouched(n) && OperatorOnly(trace) && !IsRuntimeProfile(name) && k < |trace|
    ensures var at, e := Run(n, name, trace[..k]), trace[k];
            RefusedAt(n, name, trace, k) <==>
              && e.Reconciled? && ReachesInstall(at, e.spec, e.io) && at.status.value.state != Installed
              && (StrandedSince(n, name, trace, k) || LookupMisleads(at.host, e.io.install))
  {
    OwnFilesAreMarked(n, name, trace[..k]);
    StrandedIff(n, name, trace, k);
    var at, e := Run(n, name, trace[..k]), trace[k];
    if e.Reconciled? && ReachesInstall(at, e.spec, e.io) {
      InstallRefusedIff(at.host, name, e.spec.policy, at.status.value.state == Installed, e.io.install);
    }
  }

  // ---------------------------------------------------------------- abandoned profiles

  /** Something of the profile is left on the node, and its finalizer does not say so. */
  predicate Abandoned(n: Node) {
    n.host != CLEAN && !n.finalizer
  }

  /** The finalizer is taken off after a removal that took the profile for somebody else's. */
  predicate AbandonsHere(n: Node, spec: Spec, io: Io) {
    && spec.deleting && !spec.partial && ReachesRemove(n, spec, io) && !io.api.removeFinalizerFails
    && !io.remove.mountFails && Mistaken(n.host, Evidence(n), io.remove)
  }

  predicate AbandonsAt(n: Node, name: string, trace: seq<Event>, k: nat)
    requires k < |trace|
  {
    trace[k].Reconciled? && AbandonsHere(Run(n, name, trace[..k]), trace[k].spec, trace[k].io)
  }

  lemma {:induction false} ReconcileAbandonsIff(n: Node, name: string, spec: Spec, io: Io)
    requires OursOnly(n.host) && !Abandoned(n)
    ensures Abandoned(Reconcile(n, name, spec, io)) <==> AbandonsHere(n, spec, io)
  {
    ReconcileOnHost(n, name, spec, io);
  }

  lemma {:induction false} AbandoningStep(n: Node, name: string, trace: seq<Event>, k: nat)
    requires OursOnly(n.host) && OperatorOnly(trace) && k < |trace| && !Abandoned(Run(n, name, trace[..k]))
    ensures Abandoned(Run(n, name, trace[..k + 1])) <==> AbandonsAt(n, name, trace, k)
  {
    OwnFilesAreMarked(n, name, trace[..k]);
    RunNext(n, name, trace, k);
    assert trace[k] in trace;
    if trace[k].Reconciled? {
      ReconcileAbandonsIff(Run(n, name, trace[..k]), name, trace[k].spec, trace[k].io);
    }
  }

  lemma {:induction false} StaysUnabandoned(n: Node, name: string, trace: seq<Event>, k: nat)
    requires OursOnly(n.host) && OperatorOnly(trace) && !Abandoned(n) && k <= |trace|
    requires forall i | 0 <= i < k :: !AbandonsAt(n, name, trace, i)
    ensures !Abandoned(Run(n, name, trace[..k]))
  {
    if k > 0 {
      StaysUnabandoned(n, name, trace, k - 1);
      AbandoningStep(n, name, trace, k - 1);
    }
  }

  /**
   Over every such run the finalizer of the node outlives what is on its host,
   exactly if no removal takes the operator's own profile for somebody else's.
   */
  lemma {:induction false} FinalizerOutlivesHostIff(n: Node, name: string, trace: seq<Event>)
    requires Untouched(n) && OperatorOnly(trace)
    ensures (forall k | 0 <= k <= |trace| :: !Abandoned(Run(n, name, trace[..k]))) <==>
            (forall k | 0 <= k < |trace| :: !AbandonsAt(n, name, trace, k))
  {
    if forall k | 0 <= k < |trace| :: !AbandonsAt(n, name, trace, k) {
      forall k | 0 <= k <= |trace|
        ensures !Abandoned(Run(n, name, trace[..k]))
      {
        StaysUnabandoned(n, name, trace, k);
      }
    } else {
      var k :| 0 <= k < |trace| && AbandonsAt(n, name, trace, k);
      if !Abandoned(Run(n, name, trace[..k])) {
        AbandoningStep(n, name, trace, k);
      }
      assert Abandoned(Run(n, name, trace[..k])) || Abandoned(Run(n, name, trace[..k + 1]));
    }
  }

  /** After every such run, exactly when a removal that does not fail leaves the host clean. */
  lemma {:induction false} OperatorRemovesCleanlyIff(n: Node, name: string, trace: seq<Event>,
                                  policy: Option<string>, owned: bool, io: RemoveIo)
    requires Untouched(n) && OperatorOnly(trace)
    requires Remove(Run(n, name, trace).host, policy, owned, io).1 != Failed
    ensures var h := Run(n, name, trace).host;
            Remove(h, policy, owned, io).0 == CLEAN <==>
              !(h != CLEAN && io.unreadable) && !(StrandedSince(n, name, trace, |trace|) && !owned)
  {
    assert trace[..|trace|] == trace;
    StrandedIff(n, name, trace, |trace|);
    OwnFilesAreMarked(n, name, trace);
    RemoveCleansIff(Run(n, name, trace).host, policy, owned, io);
  }

  // ---------------------------------------------------------------- kernel and file

  /** The policy in the kernel is not the one in the file. */
  predicate OutOfStep(h: Host) {
    h.file.Some? && h.loaded.Some? && h.file != h.loaded
  }

  /** Either the new policy is loaded and its file taken back, or its file stays and it is not loaded. */
  predicate DivergesAt(n: Node, name: string, trace: seq<Event>, k: nat)
    requires k < |trace|
  {
    && trace[k].Reconciled?
    && var at, spec, io := Run(n, name, trace[..k]), trace[k].spec, trace[k].io.install;
       && Writes(at, name, spec, trace[k].io)
       && if Loads(io) then !Stays(at.host, io) && at.host.file.Some? && at.host.file != Some(Generated(spec))
          else Stays(at.host, io) && at.host.loaded.Some? && at.host.loaded != Some(Generated(spec))
  }

  /** The file stays and the kernel has its policy, or the policy is unloaded. */
  predicate RejoinsAt(n: Node, name: string, trace: seq<Event>, k: nat)
    requires k < |trace|
  {
    && trace[k].Reconciled?
    && var at, spec, io := Run(n, name, trace[..k]), trace[k].spec, trace[k].io;
       || (Writes(at, name, spec, io) && Stays(at.host, io.install)
           && (Loads(io.install) || at.host.loaded == Some(Generated(spec))))
       || Unloads(at, spec, io)
  }

  ghost predicate DivergedSince(n: Node, name: string, trace: seq<Event>, k: nat)
    requires k <= |trace|
  {
    exists i | 0 <= i < k :: DivergesAt(n, name, trace, i) && forall j | i < j < k :: !RejoinsAt(n, name, trace, j)
  }

  lemma {:induction false} DivergingStep(n: Node, name: string, trace: seq<Event>, k: nat)
    requires OursOnly(n.host) && OperatorOnly(trace) && k < |trace|
    ensures var before, after := Run(n, name, trace[..k]).host, Run(n, name, trace[..k + 1]).host;
            && (DivergesAt(n, name, trace, k) ==> OutOfStep(after))
            && (OutOfStep(after) ==> OutOfStep(before) || DivergesAt(n, name, trace, k))
            && (OutOfStep(before) ==> (OutOfStep(after) <==> !RejoinsAt(n, name, trace, k)))
  {
    StepOnHost(n, name, trace, k);
  }

  lemma {:induction false} DivergedSinceNext(n: Node, name: string, trace: seq<Event>, k: nat)
    requires k < |trace|
    ensures DivergedSince(n, name, trace, k + 1) <==>
            DivergesAt(n, name, trace, k) || (DivergedSince(n, name, trace, k) && !RejoinsAt(n, name, trace, k))
  {
    if DivergedSince(n, name, trace, k) && !RejoinsAt(n, name, trace, k) {
      var i :| 0 <= i < k && DivergesAt(n, name, trace, i) && forall j | i < j < k :: !RejoinsAt(n, name, trace, j);
      assert forall j | i < j < k + 1 :: !RejoinsAt(n, name, trace, j);
    }
    if DivergedSince(n, name, trace, k + 1) && !DivergesAt(n, name, trace, k) {
      var i :| 0 <= i < k + 1 && DivergesAt(n, name, trace, i)
               && forall j | i < j < k + 1 :: !RejoinsAt(n, name, trace, j);
      assert i < k && forall j | i < j < k :: !RejoinsAt(n, name, trace, j);
    }
  }

  /** After every run of the operator alone, exactly when kernel and file hold different policies. */
  lemma {:induction false} OutOfStepIff(n: Node, name: string, trace: seq<Event>, k: nat)
    requires OursOnly(n.host) && !OutOfStep(n.host) && OperatorOnly(trace) && k <= |trace|
    ensures OutOfStep(Run(n, name, trace[..k]).host) <==> DivergedSince(n, name, trace, k)
    decreases k
  {
    if k > 0 {
      OutOfStepIff(n, name, trace, k - 1);
      DivergingStep(n, name, trace, k - 1);
      DivergedSinceNext(n, name, trace, k - 1);
    }
  }

  /** The installation of step k reports success. */
  predicate SucceedsAt(n: Node, name: string, trace: seq<Event>, k: nat)
    requires k < |trace|
  {
    && trace[k].Reconciled?
    && var at, spec, io := Run(n, name, trace[..k]), trace[k].spec, trace[k].io;
       ReachesInstall(at, spec, io)
       && Install(at.host, name, spec.policy, at.status.value.state == Installed, io.install).1.Ok()
  }

  /**
   After every successful installation of such a run the generated policy is in
   the file and some policy in the kernel, and it is the generated one exactly
   if no step up to this one left kernel and file out of step.
   */
  lemma {:induction false} InstalledIsLoadedIff(n: Node, name: string, trace: seq<Event>, k: nat)
    requires Untouched(n) && OperatorOnly(trace) && k < |trace| && SucceedsAt(n, name, trace, k)
    ensures var h, spec := Run(n, name, trace[..k + 1]).host, trace[k].spec;
            && spec.policy.Some? && h.file == Some(Generated(spec)) && h.loaded.Some?
            && (h.loaded == Some(Generated(spec)) <==> !DivergedSince(n, name, trace, k + 1))
  {
    StepOnHost(n, name, trace, k);
    InstallOnHost(Run(n, name, trace[..k]), name, trace[k].spec, trace[k].io);
    OutOfStepIff(n, name, trace, k + 1);
  }

  // ---------------------------------------------------------------- what the status tells

  /**
   What a state the reconcile of an existing node status moves to says about
   the host: Installed that the generated policy is in the file and a policy
   loaded; Disabled that nothing is left unless the removal mistook it.
   */
  lemma {:induction false} StatusTellsHost(n: Node, name: string, spec: Spec, io: Io)
    requires OursOnly(n.host) && Exists(n, spec)
    ensures var n1 := Reconcile(n, name, spec, io);
            n1.status.Some? && n1.status.value.state != n.status.value.state ==>
              match n1.status.value.state
              case Installed =>
                && n1.status.value.installed && spec.policy.Some?
                && n1.host.file == Some(Generated(spec)) && n1.host.loaded.Some?
                && (n1.host.loaded == Some(Generated(spec)) <==> !OutOfStep(n1.host))
              case Disabled =>
                && !n1.status.value.installed
                && (n1.host == CLEAN <==> !Mistaken(n.host, Evidence(n), io.remove))
              case state => state == Terminating && spec.deleting && n1.host == n.host
  {
    if ReachesInstall(n, spec, io) {
      var (h, r) := Install(n.host, name, spec.policy, n.status.value.state == Installed, io.install);
      assert r.Ok() ==> spec.policy.Some? && h.file == Some(Generated(spec)) && h.loaded.Some?;
    } else if spec.disabled && !spec.deleting {
      if Remove(n.host, spec.policy, Evidence(n), io.remove).1 != Failed {
        RemoveCleansIff(n.host, spec.policy, Evidence(n), io.remove);
      }
    }
  }

  /** A status is created only after the finalizer is stored, whatever fails. */
  lemma {:induction false} StatusNeedsFinalizer(n: Node, spec: Spec, io: ApiIo)
    requires !Exists(n, spec)
    ensures CreateStatus(n, spec, io).status != n.status ==> Exists(CreateStatus(n, spec, io), spec)
    ensures CreateStatus(n, spec, io).host == n.host
  {
  }

  /** What a call that fails would have changed is in t as it was in n. */
  ghost predicate FailedCallsKept(n: Node, t: Node, spec: Spec, api: ApiIo) {
    && (api.existsFails || (api.stateReadFails && Exists(n, spec)) ==> t == n)
    && (api.annotationReadFails && (spec.deleting || spec.disabled) ==> t.host == n.host)
    && (api.finalizerFails ==> (t.finalizer ==> n.finalizer) && (t.partialFinalizer ==> n.partialFinalizer))
    && (api.removeFinalizerFails ==> (n.finalizer ==> t.finalizer) && (n.partialFinalizer ==> t.partialFinalizer))
    && (api.finalizerFails || api.labelFails || api.legacyFails ==> t.legacy == n.legacy)
    && (api.finalizerFails || api.labelFails || api.createFails ==> (t.status.Some? ==> n.status.Some?))
    && (api.removeFinalizerFails || api.removeStatusFails ==> (n.status.Some? ==> t.status.Some?))
    && (n.status.Some? && t.status.Some? ==>
          && (api.annotationFails ==> t.status.value.installed == n.status.value.installed)
          && (api.stateWriteFails ==> t.status.value.state == n.status.value.state))
  }

  lemma {:induction false} FailedDeletionKeeps(n: Node, spec: Spec, io: Io)
    requires spec.deleting
    ensures FailedCallsKept(n, ReconcileDeletion(n, spec, io), spec, io.api)
  {
  }

  lemma {:induction false} FailedCreationKeeps(n: Node, spec: Spec, io: ApiIo)
    requires !spec.deleting && !io.existsFails && !Exists(n, spec)
    ensures FailedCallsKept(n, CreateStatus(n, spec, io), spec, io)
  {
  }

  lemma {:induction false} FailedDisablingKeeps(n: Node, spec: Spec, io: Io)
    requires !spec.deleting && !io.api.existsFails && Exists(n, spec)
    ensures FailedCallsKept(n, ReconcileDisabled(n, spec, io), spec, io.api)
  {
  }

  lemma {:induction false} FailedInstallingKeeps(n: Node, name: string, spec: Spec, io: Io)
    requires !spec.deleting && !spec.disabled && !io.api.existsFails && Exists(n, spec)
    ensures FailedCallsKept(n, ReconcileInstall(n, name, spec, io), spec, io.api)
  {
  }

  /** What a call that fails would have changed stays as it was, whatever else happens in the reconcile. */
  lemma {:induction false} ReconcileKeepsFailed(n: Node, name: string, spec: Spec, io: Io)
    ensures FailedCallsKept(n, Reconcile(n, name, spec, io), spec, io.api)
  {
    if spec.deleting {
      FailedDeletionKeeps(n, spec, io);
    } else if !io.api.existsFails {
      if !Exists(n, spec) {
        FailedCreationKeeps(n, spec, io.api);
      } else if spec.disabled && !spec.partial {
        FailedDisablingKeeps(n, spec, io);
      } else if !spec.partial {
        FailedInstallingKeeps(n, name, spec, io);
      }
    }
  }

  // ---------------------------------------------------------------- failing runs

  const API_WORKS := ApiIo(false, false, false, false, false, false, false, false, false, false, false)
  const INSTALL_WORKS := InstallIo(false, false, false, false, false, false, true, false, false)
  const REMOVE_WORKS := RemoveIo(false, false, false, false, false)
  const WORKS := Io(API_WORKS, INSTALL_WORKS, REMOVE_WORKS)
  const CHECK_FAILS := WORKS.(install := INSTALL_WORKS.(secondCheckFails := true))
  const EXISTS_UNKNOWN := WORKS.(install := INSTALL_WORKS.(existsUnknown := true))
  const ANNOTATION_FAILS := WORKS.(api := API_WORKS.(annotationFails := true))

  function Enabled(policy: string): Spec {
    Spec(Some(policy), false, false, false, false)
  }

  /** The node after the first reconcile of an enabled profile, which creates its status. */
  function Created(n: Node, name: string, policy: string): Node {
    Reconcile(n, name, Enabled(policy), WORKS)
  }

  /** What the reconcile of an enabled or disabled profile comes to when nothing fails. */
  lemma {:induction false} ReconcileWorks(n: Node, name: string, spec: Spec)
    requires OursOnly(n.host) && !IsRuntimeProfile(name) && spec.policy.Some? && !spec.partial && !spec.deleting
    ensures var n1 := Reconcile(n, name, spec, WORKS);
            if n.status.None? || !n.finalizer then
              // The status is created, with the state an earlier release left.
              var was := if n.status.Some? then n.status.value.installed else false;
              var state := if spec.disabled then Disabled
                           else if n.legacy.None? || n.legacy.value == Unset then Pending else n.legacy.value;
              n1 == n.(finalizer := true, legacy := None, status := Some(Status(state, was)))
            else if spec.disabled then
              if n.status.value.state == Disabled || spec.inUse then n1 == n
              else
                n1.status == Some(Status(Disabled, false))
                && n1.host == if Stranded(n.host) && !n.status.value.installed then n.host else CLEAN
            else if Stranded(n.host) && n.status.value.state != Installed then n1 == n
            else
              n1.status == Some(Status(Installed, true))
              && n1.host == if n.host.file == Some(Generated(spec)) && n.host.loaded.Some? then n.host
                            else Host(Some(Generated(spec)), Some(Generated(spec)))
  {
    MarkerMarks(spec.policy.value);
  }

  /** What the reconcile of a deleted profile comes to when nothing fails. */
  lemma {:induction false} DeletionWorks(n: Node, name: string, spec: Spec)
    requires OursOnly(n.host) && !spec.partial && spec.deleting
    ensures var n1 := Reconcile(n, name, spec, WORKS);
            if !n.finalizer then n1 == n
            else if n.status.Some? && n.status.value.state != Terminating then
              n1 == n.(status := Some(Status(Terminating, n.status.value.installed)))
            else if spec.inUse then n1 == n
            else
              !n1.finalizer && n1.status == None
              && n1.host == if Stranded(n.host) && !Evidence(n) then n.host else CLEAN
  {
  }

  /** A partial profile gets a status and the shared finalizer, and nothing on the host. */
  lemma {:induction false} PartialWorks(n: Node, name: string, spec: Spec)
    requires spec.partial && !spec.deleting
    ensures var n1 := Reconcile(n, name, spec, WORKS);
            && n1.host == n.host && n1.finalizer == n.finalizer
            && if n.status.Some? && n.partialFinalizer then n1 == n
               else n1.partialFinalizer && n1.status.Some?
                    && n1.status.value.state == if spec.disabled then Disabled else Partial
  {
  }

  /** A failed lookup alone: the first installation is refused, with nothing stranded. */
  lemma {:induction false} FailedLookupRefuses(n: Node, name: string, policy: string)
    requires Untouched(n) && !IsRuntimeProfile(name)
    ensures var n1 := Created(n, name, policy);
            && ReachesInstall(n1, Enabled(policy), EXISTS_UNKNOWN) && !Stranded(n1.host)
            && Install(n1.host, name, Some(policy), n1.status.value.state == Installed, EXISTS_UNKNOWN.install).1
               == ProfileExists
  {
  }

  /** A stranded policy alone: with the state Installed left over, the next installation recovers it. */
  lemma {:induction false} StrandedWithEvidenceRecovers(n: Node, name: string, policy: string)
    requires Untouched(n) && !IsRuntimeProfile(name)
    ensures var n1 := Reconcile(Created(n, name, policy), name, Enabled(policy), WORKS);
            var n2 := Reconcile(n1, name, Enabled(policy).(disabled := true), ANNOTATION_FAILS);
            var n3 := Reconcile(n2, name, Enabled(policy), CHECK_FAILS);
            && n2.host == CLEAN && Stranded(n3.host)
            && Reconcile(n3, name, Enabled(policy), WORKS).host
               == Host(Some(MARKER + policy), Some(MARKER + policy))
  {
    MarkerMarks(policy);
  }

  function PoliciesIn(trace: seq<Event>): set<string> {
    set e | e in trace && e.Reconciled? && e.spec.policy.Some? :: e.spec.policy.value
  }

  lemma {:induction false} HostOnlyAlone(h: Host, trace: seq<Event>)
    requires OperatorOnly(trace)
    ensures HostOnly(h, trace) == h
    decreases |trace|
  {
    if trace != [] {
      assert !trace[0].HostChanged?;
      HostOnlyAlone(h, trace[1..]);
    }
  }

  /**
   One failed load check on a first installation: whatever the operator does
   from then on, with any specs, the policy stays loaded without a file, and
   every installation it gets to is refused.
   */
  lemma {:induction false} FailedCheckStrands(n: Node, name: string, policy: string, later: seq<Event>)
    requires Untouched(n) && !IsRuntimeProfile(name) && OperatorOnly(later)
    ensures var n1 := Reconcile(Created(n, name, policy), name, Enabled(policy), CHECK_FAILS);
            var n2 := Run(n1, name, later);
            && Stranded(n1.host) && n2.host == n1.host
            && forall spec, io | ReachesInstall(n2, spec, io) ::
                 Install(n2.host, name, spec.policy, n2.status.value.state == Installed, io.install).1
                 == ProfileExists
  {
    var n1 := Reconcile(Created(n, name, policy), name, Enabled(policy), CHECK_FAILS);
    ForeignProfilesAreSpared(n1, name, later, PoliciesIn(later));
    HostOnlyAlone(n1.host, later);
  }

  const BLIND := WORKS.(remove := REMOVE_WORKS.(unreadable := true))

  function Deleted(policy: string): Spec {
    Enabled(policy).(deleting := true)
  }

  /** One policy file that cannot be looked at during the removal: the finalizer goes, the profile stays. */
  lemma {:induction false} BlindRemovalLeavesProfile(n: Node, name: string, policy: string)
    requires Untouched(n) && !IsRuntimeProfile(name)
    ensures var n1 := Reconcile(Created(n, name, policy), name, Enabled(policy), WORKS);
            var n2 := Reconcile(n1, name, Deleted(policy), WORKS);
            var n3 := Reconcile(n2, name, Deleted(policy), BLIND);
            && n2.finalizer && AbandonsHere(n2, Deleted(policy), BLIND)
            && n3.host == Host(Some(MARKER + policy), Some(MARKER + policy)) && !n3.finalizer && n3.status.None?
  {
    MarkerMarks(policy);
  }

  /** A stranded policy without evidence: deleting the profile leaves the policy loaded, with nothing failing. */
  lemma {:induction false} StrandedRemovalLeavesPolicy(n: Node, name: string, policy: string)
    requires Untouched(n) && !IsRuntimeProfile(name)
    ensures var n1 := Reconcile(Created(n, name, policy), name, Enabled(policy), CHECK_FAILS);
            var n2 := Reconcile(n1, name, Deleted(policy), WORKS);
            var n3 := Reconcile(n2, name, Deleted(policy), WORKS);
            && n2.finalizer && AbandonsHere(n2, Deleted(policy), WORKS)
            && n3.host == Host(None, Some(MARKER + policy)) && !n3.finalizer && n3.status.None?
  {
  }

  /** One failed load check during an update that is then taken back: Installed, with the update in the kernel. */
  lemma {:induction false} StaleKernelIsInstalled(n: Node, name: string, a: string, b: string)
    requires Untouched(n) && !IsRuntimeProfile(name) && a != b
    ensures var n1 := Reconcile(Created(n, name, a), name, Enabled(a), WORKS);
            var n2 := Reconcile(n1, name, Enabled(b), CHECK_FAILS);
            var n3 := Reconcile(n2, name, Enabled(a), WORKS);
            n3.status == Some(Status(Installed, true)) && n3.host == Host(Some(MARKER + a), Some(MARKER + b))
  {
    MarkerMarks(a);
    assert MARKER + a != MARKER + b by {
      assert (MARKER + a)[|MARKER|..] == a && (MARKER + b)[|MARKER|..] == b;
    }
  }

  // ---------------------------------------------------------------- the daemon

  function Requests(requests: seq<(Spec, Io)>): seq<Event> {
    seq(|requests|, i requires 0 <= i < |requests| => Reconciled(requests[i].0, requests[i].1))
  }

  /** The reconciler of one profile on one node, updating the host and its status in place. */
  class Daemon {
    const name: string
    var file: Option<string>
    var loaded: Option<string>
    var finalizer: bool
    var partialFinalizer: bool
    var status: Option<Status>
    var legacy: Option<ProfileState>

    function OnHost(): Host
      reads this
    {
      Host(file, loaded)
    }

    function State(): Node
      reads this
    {
      Node(OnHost(), finalizer, partialFinalizer, status, legacy)
    }

    constructor (name: string, n: Node)
      ensures this.name == name && State() == n
    {
      this.name := name;
      file, loaded := n.host.file, n.host.loaded;
      finalizer, partialFinalizer, status, legacy := n.finalizer, n.partialFinalizer, n.status, n.legacy;
    }

    method LoadPolicyFile(content: string, owned: bool, io: InstallIo) returns (r: InstallOutcome)
      modifies this`file, this`loaded
      ensures (OnHost(), r) == Load(old(OnHost()), content, owned, io)
      ensures !r.Ok() && !io.restoreFails ==> file == old(file)
    {
      var policy := MARKER + content;
      if io.readFails {
        return IoError;
      }
      var previous := file;
      if previous.Some? && !owned && !Marked(previous.value) && previous.value != content {
        return HostPolicyFile;
      }
      if previous == Some(policy) {
        if io.firstCheckFails {
          return IoError;
        }
        if loaded.Some? {
          return Unchanged;
        }
      }
      if io.writeFails {
        return IoError;
      }
      file := Some(policy);
      if io.loadFails {
        Restore(previous, io);
        return IoError;
      }
      if io.definesName {
        loaded := file;
      }
      if io.secondCheckFails {
        Restore(previous, io);
        return IoError;
      }
      if loaded.None? {
        Restore(previous, io);
        return NotLoaded;
      }
      return Updated;
    }

    /** Puts the previous file back, or removes the new one if there was none. */
    method Restore(previous: Option<string>, io: InstallIo)
      modifies this`file
      ensures file == if io.restoreFails then old(file) else previous
    {
      if !io.restoreFails {
        file := previous;
      }
    }

    method InstallProfile(policy: Option<string>, owned: bool, io: InstallIo) returns (r: InstallOutcome)
      modifies this`file, this`loaded
      ensures (OnHost(), r) == Install(old(OnHost()), name, policy, owned, io)
      ensures Foreign(old(OnHost()), if policy.Some? then {policy.value} else {}) && !owned ==>
                !r.Ok() && OnHost() == old(OnHost())
    {
      if IsRuntimeProfile(name) {
        return ReservedName;
      }
      var exists_ := io.existsUnknown || loaded.Some?;
      if exists_ && !owned && !ManagedByUs(OnHost(), io) {
        return ProfileExists;
      }
      if policy.None? {
        return CannotGenerate;
      }
      r := LoadPolicyFile(policy.value, owned, io);
    }

    method RemoveProfile(policy: Option<string>, owned: bool, io: RemoveIo) returns (r: RemoveOutcome)
      modifies this`file, this`loaded
      ensures (OnHost(), r) == Remove(old(OnHost()), policy, owned, io)
      ensures r == Removed ==> OnHost() == CLEAN
      ensures r == NotOurs ==> OnHost() == old(OnHost())
    {
      if io.mountFails {
        return Failed;
      }
      if !PolicyFileOwned(OnHost(), policy, owned, io) {
        return NotOurs;
      }
      if io.checkFails {
        return Failed;
      }
      if loaded.Some? {
        if io.unloadFails {
          return Failed;
        }
        loaded := None;
      }
      if io.removeFails {
        return Failed;
      }
      file := None;
      return Removed;
    }

    method HandleProfileDeletion(spec: Spec, io: Io) returns (ok: bool)
      modifies this`file, this`loaded
      ensures (State(), ok) == HandleDeletion(old(State()), spec, io)
      ensures ok && OursOnly(old(OnHost())) && !Mistaken(old(OnHost()), Evidence(old(State())), io.remove) ==>
                OnHost() == CLEAN
    {
      if io.api.annotationReadFails {
        return false;
      }
      var r := RemoveProfile(spec.policy, status.Some? && status.value.installed, io.remove);
      return r != Failed;
    }

    method ReconcileProfile(spec: Spec, io: Io)
      modifies this
      ensures State() == Reconcile(old(State()), name, spec, io)
    {
      if spec.deleting {
        ReconcileProfileDeletion(spec, io);
        return;
      }
      if io.api.existsFails {
        return;
      }
      if !Exists(State(), spec) {
        CreateNodeStatus(spec, io.api);
        return;
      }
      if spec.partial {
        return;
      }
      if spec.disabled {
        ReconcileDisabledProfile(spec, io);
        return;
      }
      if io.api.stateReadFails {
        return;
      }
      var r := InstallProfile(spec.policy, status.value.state == Installed, io.install);
      if !r.Ok() || io.api.annotationFails {
        return;
      }
      status := Some(status.value.(installed := true));
      if !io.api.stateWriteFails {
        status := Some(status.value.(state := Installed));
      }
    }

    method SetFinalizer(spec: Spec, present: bool)
      modifies this`finalizer, this`partialFinalizer
      ensures State() == WithFinalizer(old(State()), spec, present)
    {
      if spec.partial {
        partialFinalizer := present;
      } else {
        finalizer := present;
      }
    }

    method CreateNodeStatus(spec: Spec, io: ApiIo)
      modifies this
      ensures State() == CreateStatus(old(State()), spec, io)
      ensures OnHost() == old(OnHost())
      ensures old(status.None?) && status.Some? ==> FinalizerExists(State(), spec)
    {
      if io.finalizerFails {
        return;
      }
      SetFinalizer(spec, true);
      if io.labelFails {
        return;
      }
      var legacyState := None;
      if !io.legacyFails {
        legacyState := legacy;
        legacy := None;
      }
      if io.createFails {
        return;
      }
      if status.None? {
        status := Some(Status(Unset, false));
      }
      if !io.stateWriteFails {
        status := Some(status.value.(state := InitialState(spec, legacyState)));
      }
    }

    method ReconcileProfileDeletion(spec: Spec, io: Io)
      modifies this
      ensures State() == ReconcileDeletion(old(State()), spec, io)
      ensures OursOnly(old(OnHost())) && !Mistaken(old(OnHost()), Evidence(old(State())), io.remove) ==>
                old(FinalizerExists(State(), spec)) && !FinalizerExists(State(), spec) ==> OnHost() == CLEAN
      ensures old(status.Some?) && status.None? ==> !FinalizerExists(State(), spec)
    {
      if !FinalizerExists(State(), spec) || io.api.existsFails {
        return;
      }
      if status.Some? {
        if io.api.stateReadFails {
          return;
        }
        if status.value.state != Terminating {
          if !io.api.stateWriteFails {
            status := Some(status.value.(state := Terminating));
          }
          return;
        }
      }
      if spec.inUse {
        return;
      }
      var ok := HandleProfileDeletion(spec, io);
      if !ok || io.api.removeFinalizerFails {
        return;
      }
      SetFinalizer(spec, false);
      if !io.api.removeStatusFails {
        status := None;
      }
    }

    method ReconcileDisabledProfile(spec: Spec, io: Io)
      requires status.Some?
      modifies this
      ensures State() == ReconcileDisabled(old(State()), spec, io)
      ensures OursOnly(old(OnHost())) && !Mistaken(old(OnHost()), true, io.remove) ==>
                old(Evidence(State())) && !Evidence(State()) ==> OnHost() == CLEAN
    {
      if io.api.stateReadFails || status.value.state == Disabled || spec.inUse {
        return;
      }
      var ok := HandleProfileDeletion(spec, io);
      if !ok || io.api.annotationFails {
        return;
      }
      status := Some(status.value.(installed := false));
      if !io.api.stateWriteFails {
        status := Some(status.value.(state := Disabled));
      }
    }

    /** Any number of reconciles: the daemon's state is the one the runs are about. */
    method ReconcileAll(requests: seq<(Spec, Io)>)
      modifies this
      ensures State() == Run(old(State()), name, Requests(requests))
    {
      ghost var before := State();
      for i := 0 to |requests|
        invariant State() == Run(before, name, Requests(requests[..i]))
      {
        assert requests[..i + 1] == requests[..i] + [requests[i]];
        RunAppend(before, name, Requests(requests[..i]), Reconciled(requests[i].0, requests[i].1));
        assert Requests(requests[..i + 1])
            == Requests(requests[..i]) + [Reconciled(requests[i].0, requests[i].1)];
        ReconcileProfile(requests[i].0, requests[i].1);
      }
      assert requests[..|requests|] == requests;
    }
  }
}
