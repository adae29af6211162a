/**
 The finalizer protocol and the AppArmor hosts of its nodes together. Every
 node's reconcile reads the profile, acts on its host, and starts the retry
 loops of its finalizer, whose requests interleave with everything the other
 nodes do. The profile object must not be collected while the host of some node
 still has its policy.

 The profile is not partial, and nobody but the operator changes the hosts.
 Only the nodes add their finalizers to the profile.
 */
module ClusterHosts {
  import opened Wrappers
  import P = FinalizerProtocol
  import A = AppArmorHost

  /** What a node has besides its part in the protocol. */
  datatype Machine = Machine(host: A.Host, status: Option<A.Status>, legacy: Option<A.ProfileState>)

  /** `seen`: the nodes in a reconcile whose copy of the profile is still as it was read. */
  datatype Cluster = Cluster(api: P.State, seen: set<string>, machines: map<string, Machine>)

  datatype Event =
    | Request(event: P.Event)                             // every step of the protocol but the start of a removal
    | Visit(node: string, spec: A.Spec, io: A.Io)         // what a reconcile does up to the finalizer
    | CreateStatus(node: string, spec: A.Spec, io: A.Io)  // after the finalizer was added
    | DropStatus(node: string)                            // after the finalizer was removed

  // ---------------------------------------------------------------- steps

  predicate InCluster(s: Cluster, n: string) {
    n in s.api.nodes && n in s.machines
  }

  /** The node as its reconcile sees it. */
  function View(c: P.Config, s: Cluster, n: string): A.Node
    requires InCluster(s, n)
  {
    var m := s.machines[n];
    A.Node(m.host, P.FinalizerExists(c, n, s.api.nodes[n].pol), false, m.status, m.legacy)
  }

  /** f is a finalizer some node removes. */
  predicate OfNodes(c: P.Config, s: P.State, f: string) {
    exists n | n in s.nodes :: c.Removes(n, f)
  }

  predicate RequestAllowed(c: P.Config, s: P.State, e: P.Event) {
    match e
    case RemoveFinalizer(_) => false
    case OtherWriter(fs) =>
      s.stored.Present? ==> forall f | f in fs && OfNodes(c, s, f) :: f in s.stored.profile.finalizers
    case Recreate(fs) => forall f | f in fs :: !OfNodes(c, s, f)
    case _ => true
  }

  function SeenAfter(c: P.Config, s: Cluster, e: P.Event): set<string> {
    match e
    case Reconcile(n) => if P.Enabled(c, s.api, e) && s.api.stored.Present? then s.seen + {n} else s.seen - {n}
    case RequestDeletion => s.seen
    case OtherWriter(_) => s.seen
    case Recreate(_) => s.seen
    case _ => s.seen - {e.node}
  }

  /** The removal goes through on the host, so the finalizer is next. */
  predicate StartsRemoval(v: A.Node, spec: A.Spec, io: A.Io) {
    spec.deleting && A.ReachesRemove(v, spec, io) && A.HandleDeletion(v, spec, io).1
  }

  /** The reconcile with its own finalizer requests left out. */
  function WithoutFinalizer(io: A.Io): A.Io {
    io.(api := io.api.(finalizerFails := true, removeFinalizerFails := true))
  }

  function Visited(v: A.Node, name: string, spec: A.Spec, io: A.Io): A.Node {
    if StartsRemoval(v, spec, io) then A.HandleDeletion(v, spec, io).0
    else A.Reconcile(v, name, spec, WithoutFinalizer(io))
  }

  predicate Visits(s: Cluster, n: string, spec: A.Spec) {
    InCluster(s, n) && n in s.seen && s.api.nodes[n].phase.Idle? && !spec.partial
  }

  function SetMachine(s: Cluster, n: string, v: A.Node): Cluster {
    s.(machines := s.machines[n := Machine(v.host, v.status, v.legacy)])
  }

  function Step(c: P.Config, name: string, s: Cluster, e: Event): Cluster {
    match e
    case Request(r) =>
      if !RequestAllowed(c, s.api, r) then s
      else s.(api := P.Step(c, s.api, r), seen := SeenAfter(c, s, r))
    case Visit(n, spec, io) =>
      if !Visits(s, n, spec) then s
      else
        var v := View(c, s, n);
        var t := SetMachine(s, n, Visited(v, name, spec, io)).(seen := s.seen - {n});
        if StartsRemoval(v, spec, io) then t.(api := P.Step(c, s.api, P.RemoveFinalizer(n))) else t
    case CreateStatus(n, spec, io) =>
      if !InCluster(s, n) || !s.api.nodes[n].phase.Idle? || !s.api.nodes[n].holds then s
      else SetMachine(s, n, A.CreateStatus(View(c, s, n), spec, io.api.(finalizerFails := false)))
    case DropStatus(n) =>
      if !InCluster(s, n) || !s.api.nodes[n].phase.Idle? || s.api.nodes[n].holds then s
      else SetMachine(s, n, View(c, s, n).(status := None))
  }

  function Run(c: P.Config, name: string, s: Cluster, trace: seq<Event>): Cluster
    decreases |trace|
  {
    if trace == [] then s else Run(c, name, Step(c, name, s, trace[0]), trace[1..])
  }

  /** On the host a visit does what the whole reconcile does. */
  lemma {:induction false} VisitIsReconcile(v: A.Node, name: string, spec: A.Spec, io: A.Io)
    ensures Visited(v, name, spec, io).host == A.Reconcile(v, name, spec, io).host
    ensures StartsRemoval(v, spec, io) && !io.api.removeFinalizerFails && !io.api.removeStatusFails ==>
              A.Reconcile(v, name, spec, io)
              == A.WithFinalizer(Visited(v, name, spec, io), spec, false).(status := None)
    ensures !StartsRemoval(v, spec, io) && A.Exists(v, spec) ==>
              Visited(v, name, spec, io) == A.Reconcile(v, name, spec, io)
    ensures !spec.deleting && !A.Exists(v, spec) ==> Visited(v, name, spec, io) == v
  {
  }

  /** A node gets a status only while it holds its finalizer, and loses it only when it does not. */
  lemma {:induction false} StatusFollowsFinalizer(c: P.Config, name: string, s: Cluster, e: Event, n: string)
    requires InCluster(s, n)
    ensures var t := Step(c, name, s, e);
            && n in t.machines
            && (s.machines[n].status.None? && t.machines[n].status.Some? ==> s.api.nodes[n].holds)
            && (s.machines[n].status.Some? && t.machines[n].status.None? ==> !s.api.nodes[n].holds)
  {
  }

  // ---------------------------------------------------------------- what is guarded

  /** While the host of a node has something of the profile, the profile is stored with the node's finalizer. */
  predicate Guarded(c: P.Config, s: Cluster) {
    forall n | n in s.machines && n in s.api.nodes && s.machines[n].host != A.CLEAN ::
      s.api.stored.Present? && c.Own(n) in s.api.stored.profile.finalizers
  }

  /** Nothing on any host, and none of the nodes' finalizers on the profile. */
  predicate Fresh(c: P.Config, s: Cluster, nodes: set<string>) {
    && P.Initial(s.api) && s.api.nodes.Keys == nodes && s.machines.Keys == nodes && s.seen == {}
    && (forall n | n in s.machines :: s.machines[n].host == A.CLEAN)
    && (s.api.stored.Present? ==> forall f | f in s.api.stored.profile.finalizers :: !OfNodes(c, s.api, f))
  }

  /** A removal takes what is on the host for somebody else's. */
  predicate Mistakes(c: P.Config, s: Cluster, e: Event) {
    && e.Visit? && Visits(s, e.node, e.spec)
    && var v := View(c, s, e.node);
       StartsRemoval(v, e.spec, e.io) && A.Mistaken(v.host, A.Evidence(v), e.io.remove)
  }

  predicate NeverMistaken(c: P.Config, name: string, s: Cluster, trace: seq<Event>)
    decreases |trace|
  {
    trace == [] || (!Mistakes(c, s, trace[0]) && NeverMistaken(c, name, Step(c, name, s, trace[0]), trace[1..]))
  }

  // ---------------------------------------------------------------- the invariant

  predicate Removing(n: P.Node) {
    !n.phase.Idle? && n.phase.op.Remove?
  }

  /** The finalizers of a node are on the profile only while it holds its own. */
  predicate OnlyHolders(c: P.Config, s: P.State) {
    s.stored.Present? ==>
      forall n, f | n in s.nodes && f in s.stored.profile.finalizers && c.Removes(n, f) :: s.nodes[n].holds
  }

  /** What a node read during its reconcile is still true of it. */
  predicate SeenHold(c: P.Config, s: Cluster) {
    forall n | n in s.seen && n in s.api.nodes && P.FinalizerExists(c, n, s.api.nodes[n].pol) :: s.api.nodes[n].holds
  }

  /** A node with something on its host holds its finalizer and is not about to remove it. */
  predicate HostHeld(s: Cluster, n: string)
    requires InCluster(s, n)
  {
    && A.OursOnly(s.machines[n].host)
    && (s.machines[n].host != A.CLEAN ==> s.api.nodes[n].holds && !Removing(s.api.nodes[n]))
  }

  predicate Inv(c: P.Config, s: Cluster) {
    && P.Inv(c, s.api) && s.api.nodes.Keys == s.machines.Keys
    && OnlyHolders(c, s.api) && SeenHold(c, s)
    && forall n | n in s.machines :: HostHeld(s, n)
  }

  lemma {:induction false} InvGuards(c: P.Config, s: Cluster)
    requires Inv(c, s)
    ensures Guarded(c, s)
  {
    forall n | n in s.machines && n in s.api.nodes && s.machines[n].host != A.CLEAN
      ensures s.api.stored.Present? && c.Own(n) in s.api.stored.profile.finalizers
    {
      assert HostHeld(s, n);
    }
  }

  lemma {:induction false} WriteKeepsHolders(c: P.Config, s: P.State, n: string)
    requires P.Inv(c, s) && P.Separate(c, s.nodes.Keys) && OnlyHolders(c, s)
    requires n in s.nodes && s.nodes[n].phase.Writing?
    ensures OnlyHolders(c, P.StepWrite(s, n))
  {
    var me, t := s.nodes[n], P.StepWrite(s, n);
    assert P.WriteIsCurrent(c, s, n);
    if t.stored.Present? {
      forall k, f | k in t.nodes && f in t.stored.profile.finalizers && c.Removes(k, f)
        ensures t.nodes[k].holds
      {
        if s.stored.Present? && s.stored.profile.version == me.pol.version && me.phase.op.Add? && f == c.Own(n) {
          assert k != n ==> !c.Removes(k, c.Own(n));
        }
      }
    }
  }

  lemma {:induction false} RequestKeepsHolders(c: P.Config, s: P.State, e: P.Event)
    requires P.Inv(c, s) && P.Separate(c, s.nodes.Keys) && OnlyHolders(c, s) && RequestAllowed(c, s, e)
    ensures OnlyHolders(c, P.Step(c, s, e))
  {
    if P.Enabled(c, s, e) && e.Write? {
      WriteKeepsHolders(c, s, e.node);
    } else if P.Enabled(c, s, e) && (e.OtherWriter? || e.Recreate?) {
      var t := P.Step(c, s, e);
      if t.stored.Present? {
        forall k, f | k in t.nodes && f in t.stored.profile.finalizers && c.Removes(k, f)
          ensures t.nodes[k].holds
        {
          assert OfNodes(c, s, f);
        }
      }
    }
  }

  /** A request of the protocol takes a claim from a node only to finish its removal, and starts none. */
  lemma {:induction false} RequestKeepsClaim(c: P.Config, s: P.State, e: P.Event, n: string)
    requires n in s.nodes && !e.RemoveFinalizer? && s.nodes[n].holds && !Removing(s.nodes[n])
    ensures var t := P.Step(c, s, e); n in t.nodes && t.nodes[n].holds && !Removing(t.nodes[n])
  {
  }

  lemma {:induction false} RequestKeepsSeen(c: P.Config, s: Cluster, e: P.Event)
    requires OnlyHolders(c, s.api) && SeenHold(c, s)
    ensures SeenHold(c, s.(api := P.Step(c, s.api, e), seen := SeenAfter(c, s, e)))
  {
  }

  lemma {:induction false} RequestKeepsInv(c: P.Config, name: string, s: Cluster, e: P.Event)
    requires Inv(c, s) && P.Separate(c, s.api.nodes.Keys) && RequestAllowed(c, s.api, e)
    ensures Inv(c, Step(c, name, s, Request(e)))
  {
    var t := Step(c, name, s, Request(e));
    P.StepKeepsInv(c, s.api, e);
    RequestKeepsHolders(c, s.api, e);
    RequestKeepsSeen(c, s, e);
    forall n | n in t.machines
      ensures HostHeld(t, n)
    {
      assert HostHeld(s, n);
      if t.machines[n].host != A.CLEAN {
        RequestKeepsClaim(c, s.api, e, n);
      }
    }
  }

  /** A visit leaves something on the host only where the node saw its finalizer or had something before. */
  lemma {:induction false} VisitedHost(v: A.Node, name: string, spec: A.Spec, io: A.Io)
    requires A.OursOnly(v.host) && !spec.partial
    ensures A.OursOnly(Visited(v, name, spec, io).host)
    ensures Visited(v, name, spec, io).host != A.CLEAN ==> v.finalizer || v.host != A.CLEAN
    ensures StartsRemoval(v, spec, io) && !A.Mistaken(v.host, A.Evidence(v), io.remove) ==>
              Visited(v, name, spec, io).host == A.CLEAN
  {
    VisitIsReconcile(v, name, spec, io);
    A.ReconcileOnHost(v, name, spec, io);
    if StartsRemoval(v, spec, io) {
      A.RemoveCleansIff(v.host, spec.policy, A.Evidence(v), io.remove);
    }
  }

  /** A visit changes one machine, and of the protocol no more than the phase of its node. */
  lemma {:induction false} VisitFrame(c: P.Config, name: string, s: Cluster, e: Event)
    requires e.Visit? && Visits(s, e.node, e.spec)
    ensures var t := Step(c, name, s, e);
            && t.machines.Keys == s.machines.Keys && t.seen == s.seen - {e.node}
            && t.machines[e.node].host == Visited(View(c, s, e.node), name, e.spec, e.io).host
            && (forall k | k in s.machines && k != e.node :: t.machines[k] == s.machines[k])
            && t.api.stored == s.api.stored && t.api.nodes.Keys == s.api.nodes.Keys
            && (forall k | k in s.api.nodes ::
                  t.api.nodes[k].holds == s.api.nodes[k].holds && t.api.nodes[k].pol == s.api.nodes[k].pol)
            && (forall k | k in s.api.nodes && k != e.node :: t.api.nodes[k] == s.api.nodes[k])
            && (StartsRemoval(View(c, s, e.node), e.spec, e.io) || t.api == s.api)
  {
  }

  lemma {:induction false} VisitKeepsProtocol(c: P.Config, name: string, s: Cluster, e: Event)
    requires P.Inv(c, s.api) && P.Separate(c, s.api.nodes.Keys) && e.Visit? && Visits(s, e.node, e.spec)
    ensures P.Inv(c, Step(c, name, s, e).api)
  {
    P.StepKeepsInv(c, s.api, P.RemoveFinalizer(e.node));
  }

  lemma {:induction false} VisitKeepsHost(c: P.Config, name: string, s: Cluster, e: Event)
    requires e.Visit? && Visits(s, e.node, e.spec) && !Mistakes(c, s, e) && HostHeld(s, e.node) && SeenHold(c, s)
    ensures InCluster(Step(c, name, s, e), e.node) && HostHeld(Step(c, name, s, e), e.node)
  {
    VisitFrame(c, name, s, e);
    VisitedHost(View(c, s, e.node), name, e.spec, e.io);
  }

  lemma {:induction false} VisitKeepsInv(c: P.Config, name: string, s: Cluster, e: Event)
    requires Inv(c, s) && P.Separate(c, s.api.nodes.Keys)
    requires e.Visit? && Visits(s, e.node, e.spec) && !Mistakes(c, s, e)
    ensures Inv(c, Step(c, name, s, e)) && Step(c, name, s, e).api.nodes.Keys == s.api.nodes.Keys
  {
    var t := Step(c, name, s, e);
    assert HostHeld(s, e.node);
    VisitFrame(c, name, s, e);
    VisitKeepsProtocol(c, name, s, e);
    VisitKeepsHost(c, name, s, e);
    forall k | k in t.machines
      ensures HostHeld(t, k)
    {
      assert HostHeld(s, k);
    }
  }

  lemma {:induction false} StepKeepsInv(c: P.Config, name: string, s: Cluster, e: Event)
    requires Inv(c, s) && P.Separate(c, s.api.nodes.Keys) && !Mistakes(c, s, e)
    ensures Inv(c, Step(c, name, s, e)) && Step(c, name, s, e).api.nodes.Keys == s.api.nodes.Keys
  {
    var t := Step(c, name, s, e);
    if e.Request? && RequestAllowed(c, s.api, e.event) {
      RequestKeepsInv(c, name, s, e.event);
      P.StepKeepsInv(c, s.api, e.event);
    } else if e.Visit? && Visits(s, e.node, e.spec) {
      VisitKeepsInv(c, name, s, e);
    } else {
      forall k | k in t.machines
        ensures HostHeld(t, k)
      {
        assert HostHeld(s, k);
      }
    }
  }

  lemma {:induction false} RunKeepsInv(c: P.Config, name: string, s: Cluster, trace: seq<Event>)
    requires Inv(c, s) && P.Separate(c, s.api.nodes.Keys) && NeverMistaken(c, name, s, trace)
    ensures Inv(c, Run(c, name, s, trace))
    decreases |trace|
  {
    if trace != [] {
      StepKeepsInv(c, name, s, trace[0]);
      RunKeepsInv(c, name, Step(c, name, s, trace[0]), trace[1..]);
    }
  }

  lemma {:induction false} FreshHasInv(c: P.Config, s: Cluster, nodes: set<string>)
    requires Fresh(c, s, nodes)
    ensures Inv(c, s)
  {
    if s.api.stored.Present? {
      forall n, f | n in s.api.nodes && f in s.api.stored.profile.finalizers
        ensures !c.Removes(n, f)
      {
        assert !OfNodes(c, s.api, f);
      }
    }
  }

  // ---------------------------------------------------------------- the condition is exact

  lemma {:induction false} RunAppend(c: P.Config, name: string, s: Cluster, trace: seq<Event>, e: Event)
    ensures Run(c, name, s, trace + [e]) == Step(c, name, Run(c, name, s, trace), e)
    ensures NeverMistaken(c, name, s, trace + [e]) <==>
            NeverMistaken(c, name, s, trace) && !Mistakes(c, Run(c, name, s, trace), e)
    decreases |trace|
  {
    if trace == [] {
      assert [] + [e] == [e] && [e][1..] == [];
      assert Run(c, name, Step(c, name, s, e), []) == Step(c, name, s, e);
    } else {
      assert (trace + [e])[0] == trace[0] && (trace + [e])[1..] == trace[1..] + [e];
      RunAppend(c, name, Step(c, name, s, trace[0]), trace[1..], e);
    }
  }

  lemma {:induction false} RunAppend3(c: P.Config, name: string, s: Cluster, trace: seq<Event>, e1: Event, e2: Event,
                                      e3: Event)
    ensures Run(c, name, s, trace + [e1] + [e2] + [e3])
         == Step(c, name, Step(c, name, Step(c, name, Run(c, name, s, trace), e1), e2), e3)
  {
    RunAppend(c, name, s, trace, e1);
    RunAppend(c, name, s, trace + [e1], e2);
    RunAppend(c, name, s, trace + [e1] + [e2], e3);
  }

  /** The cluster is reached by a run without a mistaken removal. */
  ghost predicate Reached(c: P.Config, name: string, s: Cluster, t: Cluster) {
    exists trace :: NeverMistaken(c, name, s, trace) && Run(c, name, s, trace) == t
  }

  lemma {:induction false} ReachedNext(c: P.Config, name: string, s: Cluster, t: Cluster, e: Event)
    requires Reached(c, name, s, t) && !Mistakes(c, t, e)
    ensures Reached(c, name, s, Step(c, name, t, e))
  {
    var trace :| NeverMistaken(c, name, s, trace) && Run(c, name, s, trace) == t;
    RunAppend(c, name, s, trace, e);
    assert NeverMistaken(c, name, s, trace + [e]) && Run(c, name, s, trace + [e]) == Step(c, name, t, e);
  }

  lemma {:induction false} ReachedBy3(c: P.Config, name: string, s: Cluster, t: Cluster, e1: Event, e2: Event,
                                      e3: Event)
    requires Reached(c, name, s, t) && !e1.Visit? && !e2.Visit? && !e3.Visit?
    ensures Reached(c, name, s, Step(c, name, Step(c, name, Step(c, name, t, e1), e2), e3))
  {
    ReachedNext(c, name, s, t, e1);
    ReachedNext(c, name, s, Step(c, name, t, e1), e2);
    ReachedNext(c, name, s, Step(c, name, Step(c, name, t, e1), e2), e3);
  }

  /** A new profile in a cluster that has nothing of it. */
  function NewProfile(nodes: set<string>): Cluster {
    Cluster(P.Fresh(nodes), {}, map n | n in nodes :: Machine(A.CLEAN, None, None))
  }

  /** n holds its finalizer, the only one. */
  predicate Holding(c: P.Config, s: Cluster, nodes: set<string>, n: string)
    requires n in nodes
  {
    && s.api.stored == P.Present(P.Profile(2, [c.Own(n)], false)) && s.api.clock == 3
    && s.api.nodes == P.Fresh(nodes).nodes[n := P.Node(P.Copy(2, [c.Own(n)]), P.Idle, true)]
    && s.machines.Keys == nodes
    && forall k | k in nodes && k != n :: s.machines[k] == Machine(A.CLEAN, None, None)
  }

  lemma {:induction false} AddsFinalizer(c: P.Config, name: string, nodes: set<string>, n: string) returns (t: Cluster)
    requires n in nodes
    ensures Reached(c, name, NewProfile(nodes), t) && Holding(c, t, nodes, n)
    ensures t.machines == NewProfile(nodes).machines
  {
    var s := NewProfile(nodes);
    assert NeverMistaken(c, name, s, []) && Run(c, name, s, []) == s;
    ReachedBy3(c, name, s, s, Request(P.CreateFinalizer(n)), Request(P.Read(n)), Request(P.Write(n)));
    var s1 := Step(c, name, s, Request(P.CreateFinalizer(n)));
    var s2 := Step(c, name, s1, Request(P.Read(n)));
    t := Step(c, name, s2, Request(P.Write(n)));
    P.Run3(c, s.api, P.CreateFinalizer(n), P.Read(n), P.Write(n));
    P.AddingRun(c, nodes, n);
  }

  lemma {:induction false} CreatesStatus(c: P.Config, name: string, nodes: set<string>, n: string, policy: string)
    returns (t: Cluster)
    requires n in nodes && !c.partial
    ensures Reached(c, name, NewProfile(nodes), t) && Holding(c, t, nodes, n) && n in t.seen
    ensures t.machines[n] == Machine(A.CLEAN, Some(A.Status(A.Pending, false)), None)
  {
    var s := AddsFinalizer(c, name, nodes, n);
    var create, read := CreateStatus(n, A.Enabled(policy), A.WORKS), Request(P.Reconcile(n));
    ReachedNext(c, name, NewProfile(nodes), s, create);
    var s1 := Step(c, name, s, create);
    assert s1.machines[n] == Machine(A.CLEAN, Some(A.Status(A.Pending, false)), None);
    ReachedNext(c, name, NewProfile(nodes), s1, read);
    t := Step(c, name, s1, read);
    assert t.api.nodes == s.api.nodes;
  }

  function InstalledHost(policy: string): A.Host {
    A.Host(Some(A.MARKER + policy), Some(A.MARKER + policy))
  }

  lemma {:induction false} Installs(c: P.Config, name: string, nodes: set<string>, n: string, policy: string)
    returns (t: Cluster)
    requires n in nodes && !c.partial && !A.IsRuntimeProfile(name)
    ensures Reached(c, name, NewProfile(nodes), t) && Holding(c, t, nodes, n)
    ensures t.machines[n] == Machine(InstalledHost(policy), Some(A.Status(A.Installed, true)), None)
  {
    var s := CreatesStatus(c, name, nodes, n, policy);
    var visit := Visit(n, A.Enabled(policy), A.WORKS);
    assert P.FinalizerExists(c, n, s.api.nodes[n].pol);
    ReachedNext(c, name, NewProfile(nodes), s, visit);
    t := Step(c, name, s, visit);
  }

  lemma {:induction false} StealingVisit(c: P.Config, name: string, s: Cluster, m: string, f: string, policy: string)
    requires InCluster(s, m) && m in s.seen && c.Removes(m, f)
    requires s.machines[m] == Machine(A.CLEAN, None, None)
    requires s.api.nodes[m] == P.Node(P.Copy(3, [f]), P.Idle, false)
    ensures var visit := Visit(m, A.Deleted(policy), A.WORKS);
            var t := Step(c, name, s, visit);
            && !Mistakes(c, s, visit)
            && t.api == s.api.(nodes := s.api.nodes[m := s.api.nodes[m].(phase := P.Reading(P.Remove, 0))])
            && t.machines.Keys == s.machines.Keys
            && forall k | k in s.machines && k != m :: t.machines[k] == s.machines[k]
  {
    assert f in s.api.nodes[m].pol.finalizers && P.FinalizerExists(c, m, s.api.nodes[m].pol);
    var v := View(c, s, m);
    assert v == A.Node(A.CLEAN, true, false, None, None);
    assert StartsRemoval(v, A.Deleted(policy), A.WORKS);
  }

  /** With deletion requested, m sees a finalizer it removes, has nothing on its host, and starts the removal. */
  lemma {:induction false} StartsToSteal(c: P.Config, name: string, nodes: set<string>, n: string, m: string,
                                         policy: string)
    returns (t: Cluster)
    requires n in nodes && m in nodes && n != m && c.Removes(m, c.Own(n)) && !c.partial && !A.IsRuntimeProfile(name)
    ensures Reached(c, name, NewProfile(nodes), t) && InCluster(t, n) && t.machines[n].host != A.CLEAN
    ensures t.api.stored == P.Present(P.Profile(3, [c.Own(n)], true)) && InCluster(t, m)
    ensures t.api.nodes[m].phase == P.Reading(P.Remove, 0)
  {
    var s := Installs(c, name, nodes, n, policy);
    var delete, read := Request(P.RequestDeletion), Request(P.Reconcile(m));
    ReachedNext(c, name, NewProfile(nodes), s, delete);
    var s1 := Step(c, name, s, delete);
    ReachedNext(c, name, NewProfile(nodes), s1, read);
    var s2 := Step(c, name, s1, read);
    assert s2.api.nodes[m] == P.Node(P.Copy(3, [c.Own(n)]), P.Idle, false) && m in s2.seen;
    StealingVisit(c, name, s2, m, c.Own(n), policy);
    ReachedNext(c, name, NewProfile(nodes), s2, Visit(m, A.Deleted(policy), A.WORKS));
    t := Step(c, name, s2, Visit(m, A.Deleted(policy), A.WORKS));
  }

  /** Nodes that are not separate: one of them collects the profile while the host of the other has its policy. */
  lemma {:induction false} InterferenceUncovers(c: P.Config, name: string, nodes: set<string>, n: string, m: string)
    returns (t: Cluster)
    requires n in nodes && m in nodes && n != m && c.Removes(m, c.Own(n)) && !c.partial && !A.IsRuntimeProfile(name)
    ensures Reached(c, name, NewProfile(nodes), t) && t.api.stored.Absent? && !Guarded(c, t)
  {
    var s := StartsToSteal(c, name, nodes, n, m, "");
    var own := c.Own(n);
    P.StrippedAlone(c, m, own);
    ReachedNext(c, name, NewProfile(nodes), s, Request(P.Read(m)));
    var s1 := Step(c, name, s, Request(P.Read(m)));
    assert s1.api.nodes[m].phase == P.Writing(P.Remove, 0, [own]) && s1.api.nodes[m].pol == P.Copy(3, []);
    ReachedNext(c, name, NewProfile(nodes), s1, Request(P.Write(m)));
    t := Step(c, name, s1, Request(P.Write(m)));
    assert n in t.machines && n in t.api.nodes && t.machines[n].host != A.CLEAN;
  }

  /**
   The profile is never collected while the host of some node has its policy,
   in every run of the given nodes in which no removal takes the operator's own
   policy for somebody else's, if and only if no node removes the current
   finalizer of another one.
   */
  lemma {:induction false} ClusterGuardedIffSeparate(c: P.Config, name: string, nodes: set<string>)
    requires !c.partial && !A.IsRuntimeProfile(name)
    ensures P.Separate(c, nodes) <==>
            forall s, trace | Fresh(c, s, nodes) && NeverMistaken(c, name, s, trace) ::
              Guarded(c, Run(c, name, s, trace))
  {
    if P.Separate(c, nodes) {
      forall s, trace | Fresh(c, s, nodes) && NeverMistaken(c, name, s, trace)
        ensures Guarded(c, Run(c, name, s, trace))
      {
        FreshHasInv(c, s, nodes);
        RunKeepsInv(c, name, s, trace);
        InvGuards(c, Run(c, name, s, trace));
      }
    } else {
      var n, m :| n in nodes && m in nodes && n != m && c.Removes(m, c.Own(n));
      var t := InterferenceUncovers(c, name, nodes, n, m);
      var s := NewProfile(nodes);
      var trace :| NeverMistaken(c, name, s, trace) && Run(c, name, s, trace) == t;
      assert Fresh(c, s, nodes) && !Guarded(c, Run(c, name, s, trace));
    }
  }

  /** n has its policy installed, deletion was requested, and n has seen that and marked its status. */
  lemma {:induction false} Terminates(c: P.Config, name: string, nodes: set<string>, n: string, policy: string)
    returns (t: Cluster)
    requires n in nodes && !c.partial && !A.IsRuntimeProfile(name)
    ensures Reached(c, name, NewProfile(nodes), t) && InCluster(t, n) && n in t.seen
    ensures t.machines[n] == Machine(InstalledHost(policy), Some(A.Status(A.Terminating, true)), None)
    ensures t.api.stored == P.Present(P.Profile(3, [c.Own(n)], true))
    ensures t.api.nodes[n] == P.Node(P.Copy(3, [c.Own(n)]), P.Idle, true)
  {
    var s := Installs(c, name, nodes, n, policy);
    var start, read := NewProfile(nodes), Request(P.Reconcile(n));
    ReachedBy3(c, name, start, s, Request(P.RequestDeletion), read, read);
    var s1 := Step(c, name, Step(c, name, Step(c, name, s, Request(P.RequestDeletion)), read), read);
    assert s1.api.nodes[n] == P.Node(P.Copy(3, [c.Own(n)]), P.Idle, true) && n in s1.seen;
    var visit := Visit(n, A.Deleted(policy), A.WORKS);
    assert c.Own(n) in s1.api.nodes[n].pol.finalizers && P.FinalizerExists(c, n, s1.api.nodes[n].pol);
    assert !StartsRemoval(View(c, s1, n), A.Deleted(policy), A.WORKS);
    ReachedNext(c, name, start, s1, visit);
    var s2 := Step(c, name, s1, visit);
    ReachedNext(c, name, start, s2, read);
    t := Step(c, name, s2, read);
  }

  lemma {:induction false} BlindVisit(c: P.Config, name: string, s: Cluster, n: string, policy: string)
    requires InCluster(s, n) && n in s.seen
    requires s.machines[n] == Machine(InstalledHost(policy), Some(A.Status(A.Terminating, true)), None)
    requires s.api.nodes[n] == P.Node(P.Copy(3, [c.Own(n)]), P.Idle, true)
    ensures var t := Step(c, name, s, Visit(n, A.Deleted(policy), A.BLIND));
            && InCluster(t, n) && t.machines[n].host == InstalledHost(policy)
            && t.api == s.api.(nodes := s.api.nodes[n := s.api.nodes[n].(phase := P.Reading(P.Remove, 0))])
  {
    assert c.Own(n) in s.api.nodes[n].pol.finalizers && P.FinalizerExists(c, n, s.api.nodes[n].pol);
    assert StartsRemoval(View(c, s, n), A.Deleted(policy), A.BLIND);
  }

  /** The last finalizer goes, and with it the profile. */
  lemma {:induction false} LastRemoval(c: P.Config, name: string, s: Cluster, n: string)
    requires InCluster(s, n) && s.machines[n].host != A.CLEAN
    requires s.api.stored == P.Present(P.Profile(3, [c.Own(n)], true))
    requires s.api.nodes[n].phase == P.Reading(P.Remove, 0)
    ensures !Guarded(c, Step(c, name, Step(c, name, s, Request(P.Read(n))), Request(P.Write(n))))
  {
    P.StrippedAlone(c, n, c.Own(n));
    var s1 := Step(c, name, s, Request(P.Read(n)));
    assert s1.api.nodes[n].phase == P.Writing(P.Remove, 0, [c.Own(n)]) && s1.api.nodes[n].pol == P.Copy(3, []);
    var s2 := Step(c, name, s1, Request(P.Write(n)));
    assert s2.api.stored.Absent? && n in s2.machines && n in s2.api.nodes;
  }

  /** The other condition is needed, too: one mistaken removal, and the profile goes before the policy. */
  lemma {:induction false} MistakeUncovers(c: P.Config, name: string, nodes: set<string>, n: string)
    returns (trace: seq<Event>)
    requires n in nodes && !c.partial && !A.IsRuntimeProfile(name)
    ensures Fresh(c, NewProfile(nodes), nodes)
    ensures !Guarded(c, Run(c, name, NewProfile(nodes), trace))
  {
    var start := NewProfile(nodes);
    var s := Terminates(c, name, nodes, n, "");
    var visit, read, write := Visit(n, A.Deleted(""), A.BLIND), Request(P.Read(n)), Request(P.Write(n));
    var before :| NeverMistaken(c, name, start, before) && Run(c, name, start, before) == s;
    RunAppend3(c, name, start, before, visit, read, write);
    trace := before + [visit] + [read] + [write];
    BlindVisit(c, name, s, n, "");
    LastRemoval(c, name, Step(c, name, s, visit), n);
  }
}
