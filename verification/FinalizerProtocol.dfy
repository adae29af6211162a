/**
 The per-node finalizer protocol. Every node daemon runs get / modify /
 conditional update loops on one profile object. The API server serves each
 request atomically: a read returns the stored object, an update with a stale
 version is a conflict, and an object whose deletion was requested is collected
 once its finalizer list is empty.

 Between two requests of a node any other node, a user or another controller
 may act. A run is a sequence of events; an event that is not enabled changes
 nothing.
 */
module FinalizerProtocol {
  import opened FinalizerNames

  /** What decides the finalizer names: whether the profile is partial, and SHA-256. */
  datatype Config = Config(partial: bool, hex: string -> string) {
    function Own(node: string): string {
      if partial then PARTIAL_FINALIZER else NodeFinalizer(hex, node)
    }

    function Legacy(node: string): string {
      if partial then "" else LegacyFinalizer(node)
    }

    /** The node removes f when it removes the profile. */
    predicate Removes(node: string, f: string) {
      f == Own(node) || (Legacy(node) != "" && f == Legacy(node))
    }
  }

  datatype Profile = Profile(version: nat, finalizers: seq<string>, deleting: bool)

  datatype Stored = Absent | Present(profile: Profile)

  /** The node's in-memory profile, as the last request left it. */
  datatype Copy = Copy(version: nat, finalizers: seq<string>)

  datatype Operation = Add | Remove

  /** Where a node stands: idle, about to read, or about to write what it made of `seen`. */
  datatype Phase =
    | Idle
    | Reading(op: Operation, attempt: nat)
    | Writing(op: Operation, attempt: nat, seen: seq<string>)

  /** `holds`: the node made sure its finalizer is stored, and has not removed it since. */
  datatype Node = Node(pol: Copy, phase: Phase, holds: bool)

  datatype State = State(stored: Stored, clock: nat, nodes: map<string, Node>)

  datatype Event =
    | Reconcile(node: string)             // the controller reads the profile
    | CreateFinalizer(node: string)
    | MigrateLegacyFinalizer(node: string)
    | RemoveFinalizer(node: string)
    | Read(node: string)
    | Write(node: string)
    | Fail(node: string)                  // a request fails with an error that is not retried
    | Crash(node: string)                 // the daemon restarts and forgets its copy
    | RequestDeletion
    | OtherWriter(finalizers: seq<string>)
    | Recreate(finalizers: seq<string>)

  const RETRY_STEPS := 5

  // ---------------------------------------------------------------- finalizer lists

  /** `controllerutil.AddFinalizer`. */
  function Added(fs: seq<string>, f: string): seq<string> {
    if f in fs then fs else fs + [f]
  }

  /** `controllerutil.RemoveFinalizer`, which drops every occurrence. */
  function Without(fs: seq<string>, f: string): (r: seq<string>)
    ensures forall x :: x in r <==> x in fs && x != f
  {
    if fs == [] then []
    else
      assert fs == [fs[0]] + fs[1..];
      if fs[0] == f then Without(fs[1..], f) else [fs[0]] + Without(fs[1..], f)
  }

  /** What is left is left as often as before. */
  lemma {:induction false} WithoutCounts(fs: seq<string>, f: string)
    ensures multiset(Without(fs, f)) == multiset(fs)[f := 0]
  {
    if fs != [] {
      WithoutCounts(fs[1..], f);
      assert fs == [fs[0]] + fs[1..];
    }
  }

  /** What RemoveFinalizers makes of a list; empty finalizers are ignored. */
  function Stripped(c: Config, node: string, fs: seq<string>): (r: seq<string>)
    ensures forall x :: x in r <==> x in fs && !c.Removes(node, x)
  {
    var own := Without(fs, c.Own(node));
    if c.Legacy(node) == "" then own else Without(own, c.Legacy(node))
  }

  /** The list a node writes back, having read `seen`. */
  function Edited(c: Config, node: string, op: Operation, seen: seq<string>): seq<string> {
    match op
    case Add => Added(seen, c.Own(node))
    case Remove => Stripped(c, node, seen)
  }

  predicate FinalizerExists(c: Config, node: string, pol: Copy) {
    c.Own(node) in pol.finalizers || (c.Legacy(node) != "" && c.Legacy(node) in pol.finalizers)
  }

  // ---------------------------------------------------------------- steps

  /** The server stores a new list, or collects the object. */
  function Store(s: State, fs: seq<string>, deleting: bool): State {
    s.(stored := if deleting && fs == [] then Absent else Present(Profile(s.clock, fs, deleting)),
    clock := s.clock + 1)
  }

  function SetNode(s: State, node: string, value: Node): State {
    s.(nodes := s.nodes[node := value])
  }

  /** `util.Retry`: a conflict or a missing object is tried again, five times in all. */
  function Retried(op: Operation, attempt: nat): Phase {
    if attempt + 1 < RETRY_STEPS then Reading(op, attempt + 1) else Idle
  }

  function StepRead(c: Config, s: State, node: string): State
    requires node in s.nodes && s.nodes[node].phase.Reading?
  {
    var me := s.nodes[node];
    match s.stored
    case Absent => SetNode(s, node, me.(phase := Retried(me.phase.op, me.phase.attempt)))
    case Present(o) =>
      var edited := Edited(c, node, me.phase.op, o.finalizers);
      if edited == o.finalizers then
        // Nothing to change: AddFinalizer found its finalizer, RemoveFinalizers found none.
        SetNode(s, node, Node(Copy(o.version, o.finalizers), Idle, me.holds || me.phase.op.Add?))
      else
        SetNode(s, node, Node(Copy(o.version, edited),
                              Writing(me.phase.op, me.phase.attempt, o.finalizers), me.holds))
  }

  function StepWrite(s: State, node: string): State
    requires node in s.nodes && s.nodes[node].phase.Writing?
  {
    var me := s.nodes[node];
    if s.stored.Absent? || s.stored.profile.version != me.pol.version then
      SetNode(s, node, me.(phase := Retried(me.phase.op, me.phase.attempt)))
    else
      SetNode(Store(s, me.pol.finalizers, s.stored.profile.deleting), node,
              Node(Copy(s.clock, me.pol.finalizers), Idle, me.phase.op.Add?))
  }

  predicate Enabled(c: Config, s: State, e: Event) {
    match e
    case Reconcile(n) => n in s.nodes && s.nodes[n].phase.Idle?
    case CreateFinalizer(n) => n in s.nodes && s.nodes[n].phase.Idle?
    case MigrateLegacyFinalizer(n) =>
      n in s.nodes && s.nodes[n].phase.Idle? && c.Legacy(n) != ""
      && c.Legacy(n) in s.nodes[n].pol.finalizers && c.Own(n) !in s.nodes[n].pol.finalizers
    case RemoveFinalizer(n) =>
      n in s.nodes && s.nodes[n].phase.Idle? && FinalizerExists(c, n, s.nodes[n].pol)
    case Read(n) => n in s.nodes && s.nodes[n].phase.Reading?
    case Write(n) => n in s.nodes && s.nodes[n].phase.Writing?
    case Fail(n) => n in s.nodes
    case Crash(n) => n in s.nodes
    case RequestDeletion => s.stored.Present?
    // Nobody but the node itself takes the finalizer of a node off the profile.
    case OtherWriter(fs) =>
      s.stored.Present? && forall n | n in s.nodes && c.Own(n) in s.stored.profile.finalizers :: c.Own(n) in fs
    case Recreate(_) => s.stored.Absent?
  }

  function Step(c: Config, s: State, e: Event): State {
    if !Enabled(c, s, e) then s
    else
      match e
      case Reconcile(n) =>
        (match s.stored
         case Absent => s
         case Present(o) => SetNode(s, n, s.nodes[n].(pol := Copy(o.version, o.finalizers))))
      case CreateFinalizer(n) => SetNode(s, n, s.nodes[n].(phase := Reading(Add, 0)))
      case MigrateLegacyFinalizer(n) => SetNode(s, n, s.nodes[n].(phase := Reading(Add, 0)))
      case RemoveFinalizer(n) => SetNode(s, n, s.nodes[n].(phase := Reading(Remove, 0)))
      case Read(n) => StepRead(c, s, n)
      case Write(n) => StepWrite(s, n)
      case Fail(n) => SetNode(s, n, s.nodes[n].(phase := Idle))
      case Crash(n) => SetNode(s, n, Node(Copy(0, []), Idle, s.nodes[n].holds))
      case RequestDeletion => Store(s, s.stored.profile.finalizers, true)
      case OtherWriter(fs) => Store(s, fs, s.stored.profile.deleting)
      case Recreate(fs) => Store(s, fs, false)
  }

  function Run(c: Config, s: State, trace: seq<Event>): State
    decreases |trace|
  {
    if trace == [] then s else Run(c, Step(c, s, trace[0]), trace[1..])
  }

  // ---------------------------------------------------------------- safety

  predicate Initial(s: State) {
    && (s.stored.Present? ==> s.stored.profile.version < s.clock)
    && forall n | n in s.nodes ::
         s.nodes[n].phase.Idle? && !s.nodes[n].holds && s.nodes[n].pol.version < s.clock
  }

  /** A node that holds its finalizer has it stored, so the object is not collected. */
  predicate Safe(c: Config, s: State) {
    forall n | n in s.nodes && s.nodes[n].holds ::
      s.stored.Present? && c.Own(n) in s.stored.profile.finalizers
  }

  /** No node removes the current finalizer of another one. */
  predicate Separate(c: Config, nodes: set<string>) {
    forall n, m | n in nodes && m in nodes && n != m :: !c.Removes(m, c.Own(n))
  }

  /**
   What a pending write may rely on: if its version is still the stored one,
   the list it edited is still the stored one.
   */
  predicate WriteIsCurrent(c: Config, s: State, n: string)
    requires n in s.nodes
  {
    var me := s.nodes[n];
    me.phase.Writing? ==>
      && me.pol.version < s.clock
      && me.pol.finalizers == Edited(c, n, me.phase.op, me.phase.seen)
      && (s.stored.Present? && s.stored.profile.version == me.pol.version ==>
            s.stored.profile.finalizers == me.phase.seen)
  }

  predicate Inv(c: Config, s: State) {
    && (s.stored.Present? ==> s.stored.profile.version < s.clock)
    && (forall n | n in s.nodes :: WriteIsCurrent(c, s, n))
    && Safe(c, s)
  }

  lemma {:induction false} WriteKeepsInv(c: Config, s: State, n: string)
    requires Inv(c, s) && Separate(c, s.nodes.Keys)
    requires n in s.nodes && s.nodes[n].phase.Writing?
    ensures Inv(c, StepWrite(s, n))
  {
    var me, t := s.nodes[n], StepWrite(s, n);
    assert WriteIsCurrent(c, s, n);
    forall k | k in t.nodes
      ensures WriteIsCurrent(c, t, k)
    {
      assert k in s.nodes && WriteIsCurrent(c, s, k);
    }
    if s.stored.Present? && s.stored.profile.version == me.pol.version {
      forall k | k in t.nodes && t.nodes[k].holds
        ensures c.Own(k) in me.pol.finalizers
      {
        // Adding drops nothing; removing drops no finalizer of another node.
        assert k != n ==> !c.Removes(n, c.Own(k));
      }
    }
  }

  lemma {:induction false} ReadKeepsInv(c: Config, s: State, n: string)
    requires Inv(c, s) && n in s.nodes && s.nodes[n].phase.Reading?
    ensures Inv(c, StepRead(c, s, n))
  {
    var t := StepRead(c, s, n);
    forall k | k in t.nodes
      ensures WriteIsCurrent(c, t, k)
    {
      assert k in s.nodes && WriteIsCurrent(c, s, k);
    }
    if s.stored.Present? && s.nodes[n].phase.op.Add? {
      AddedIsNoOp(s.stored.profile.finalizers, c.Own(n));
    }
  }

  lemma {:induction false} AddedIsNoOp(fs: seq<string>, f: string)
    ensures Added(fs, f) == fs <==> f in fs
  {
  }

  lemma {:induction false} StepKeepsInv(c: Config, s: State, e: Event)
    requires Inv(c, s) && Separate(c, s.nodes.Keys)
    ensures Inv(c, Step(c, s, e)) && Step(c, s, e).nodes.Keys == s.nodes.Keys
  {
    var t := Step(c, s, e);
    if Enabled(c, s, e) && e.Write? {
      WriteKeepsInv(c, s, e.node);
    } else if Enabled(c, s, e) && e.Read? {
      ReadKeepsInv(c, s, e.node);
    } else {
      forall k | k in t.nodes
        ensures WriteIsCurrent(c, t, k)
      {
        assert k in s.nodes && WriteIsCurrent(c, s, k);
      }
    }
  }

  lemma {:induction false} RunKeepsInv(c: Config, s: State, trace: seq<Event>)
    requires Inv(c, s) && Separate(c, s.nodes.Keys)
    ensures Inv(c, Run(c, s, trace)) && Run(c, s, trace).nodes.Keys == s.nodes.Keys
    decreases |trace|
  {
    if trace != [] {
      StepKeepsInv(c, s, trace[0]);
      RunKeepsInv(c, Step(c, s, trace[0]), trace[1..]);
    }
  }

  // ---------------------------------------------------------------- the condition is exact

  /** A fresh profile, no daemon has seen it yet. */
  function Fresh(nodes: set<string>): State {
    State(Present(Profile(1, [], false)), 2, map n | n in nodes :: Node(Copy(0, []), Idle, false))
  }

  /** n adds its finalizer, deletion is requested, and m removes the profile first. */
  function StealingRun(n: string, m: string): seq<Event> {
    [CreateFinalizer(n), Read(n), Write(n)] +
    [RequestDeletion, Reconcile(m), RemoveFinalizer(m), Read(m), Write(m)]
  }

  lemma {:induction false} RunConcat(c: Config, s: State, a: seq<Event>, b: seq<Event>)
    ensures Run(c, s, a + b) == Run(c, Run(c, s, a), b)
    decreases |a|
  {
    if a == [] {
      assert a + b == b;
    } else {
      assert (a + b)[0] == a[0] && (a + b)[1..] == a[1..] + b;
      RunConcat(c, Step(c, s, a[0]), a[1..], b);
    }
  }

  lemma {:induction false} Run3(c: Config, s: State, e1: Event, e2: Event, e3: Event)
    ensures Run(c, s, [e1, e2, e3]) == Step(c, Step(c, Step(c, s, e1), e2), e3)
  {
    assert [e1, e2, e3][1..] == [e2, e3] && [e2, e3][1..] == [e3];
    assert Run(c, Step(c, Step(c, s, e1), e2), [e3]) == Step(c, Step(c, Step(c, s, e1), e2), e3);
  }

  lemma {:induction false} Run5(c: Config, s: State, e1: Event, e2: Event, e3: Event, e4: Event, e5: Event)
    ensures Run(c, s, [e1, e2, e3, e4, e5]) == Step(c, Step(c, Run(c, s, [e1, e2, e3]), e4), e5)
  {
    assert [e1, e2, e3, e4, e5] == [e1, e2, e3] + [e4, e5];
    RunConcat(c, s, [e1, e2, e3], [e4, e5]);
    assert [e4, e5][1..] == [e5];
    assert Run(c, Step(c, Run(c, s, [e1, e2, e3]), e4), [e5])
        == Step(c, Step(c, Run(c, s, [e1, e2, e3]), e4), e5);
  }

  lemma {:induction false} AddingRun(c: Config, nodes: set<string>, n: string)
    requires n in nodes
    ensures var s := Run(c, Fresh(nodes), [CreateFinalizer(n), Read(n), Write(n)]);
            && s.stored == Present(Profile(2, [c.Own(n)], false)) && s.clock == 3
            && s.nodes == Fresh(nodes).nodes[n := Node(Copy(2, [c.Own(n)]), Idle, true)]
  {
    Run3(c, Fresh(nodes), CreateFinalizer(n), Read(n), Write(n));
    var s1 := Step(c, Fresh(nodes), CreateFinalizer(n));
    var s2 := Step(c, s1, Read(n));
    assert s2.nodes[n] == Node(Copy(1, [c.Own(n)]), Writing(Add, 0, []), false);
  }

  /**
   Migration spelled out: a node that finds its legacy finalizer but not its own
   one appends its own, keeping the legacy one, and otherwise does nothing.
   */
  lemma {:induction false} MigrationAddsOwn(c: Config, s: State, n: string)
    requires n in s.nodes && s.nodes[n].phase.Idle?
    requires s.stored.Present? && s.stored.profile.version == s.nodes[n].pol.version
    requires s.stored.profile.finalizers == s.nodes[n].pol.finalizers
    ensures var fs, t := s.nodes[n].pol.finalizers, Run(c, s, [MigrateLegacyFinalizer(n), Read(n), Write(n)]);
            if c.Legacy(n) != "" && c.Legacy(n) in fs && c.Own(n) !in fs then
              t.stored == Present(Profile(s.clock, fs + [c.Own(n)], s.stored.profile.deleting))
              && n in t.nodes && t.nodes[n].holds
            else t == s
  {
    Run3(c, s, MigrateLegacyFinalizer(n), Read(n), Write(n));
    var s1 := Step(c, s, MigrateLegacyFinalizer(n));
    var s2 := Step(c, s1, Read(n));
    if c.Legacy(n) != "" && c.Legacy(n) in s.nodes[n].pol.finalizers && c.Own(n) !in s.nodes[n].pol.finalizers {
      AddedIsNoOp(s.nodes[n].pol.finalizers, c.Own(n));
      assert s2.nodes[n].phase.Writing? && s2.nodes[n].pol.version == s.nodes[n].pol.version;
    }
  }

  lemma {:induction false} StrippedAlone(c: Config, node: string, f: string)
    requires c.Removes(node, f)
    ensures Stripped(c, node, [f]) == []
  {
    assert Without([f], c.Own(node)) == if c.Own(node) == f then [] else [f];
    assert Without([f], f) == [];
  }

  lemma {:induction false} InterferenceSteals(c: Config, nodes: set<string>, n: string, m: string)
    requires n in nodes && m in nodes && n != m && c.Removes(m, c.Own(n))
    ensures !Safe(c, Run(c, Fresh(nodes), StealingRun(n, m)))
    ensures Run(c, Fresh(nodes), StealingRun(n, m)).stored.Absent?
  {
    var own := c.Own(n);
    AddingRun(c, nodes, n);
    var s := Run(c, Fresh(nodes), [CreateFinalizer(n), Read(n), Write(n)]);
    RunConcat(c, Fresh(nodes), [CreateFinalizer(n), Read(n), Write(n)],
              [RequestDeletion, Reconcile(m), RemoveFinalizer(m), Read(m), Write(m)]);
    Run5(c, s, RequestDeletion, Reconcile(m), RemoveFinalizer(m), Read(m), Write(m));
    Run3(c, s, RequestDeletion, Reconcile(m), RemoveFinalizer(m));
    var s3 := Run(c, s, [RequestDeletion, Reconcile(m), RemoveFinalizer(m)]);
    assert s3.stored == Present(Profile(3, [own], true));
    assert s3.nodes[m].phase == Reading(Remove, 0);
    StrippedAlone(c, m, own);
    var s4 := Step(c, s3, Read(m));
    assert s4.nodes[m] == Node(Copy(3, []), Writing(Remove, 0, [own]), false);
    var s5 := Step(c, s4, Write(m));
    assert s5.nodes[n].holds && s5.stored.Absent?;
  }

  /**
   The protocol protects every holding node in every run of the given nodes if
   and only if no node removes the current finalizer of another one.
   */
  lemma {:induction false} ProtocolSafeIffSeparate(c: Config, nodes: set<string>)
    ensures Separate(c, nodes) <==>
            forall s, trace | Initial(s) && s.nodes.Keys == nodes :: Safe(c, Run(c, s, trace))
  {
    if Separate(c, nodes) {
      forall s, trace | Initial(s) && s.nodes.Keys == nodes
        ensures Safe(c, Run(c, s, trace))
      {
        RunKeepsInv(c, s, trace);
      }
    } else {
      var n, m :| n in nodes && m in nodes && n != m && c.Removes(m, c.Own(n));
      InterferenceSteals(c, nodes, n, m);
      assert Initial(Fresh(nodes)) && Fresh(nodes).nodes.Keys == nodes;
    }
  }

  /** A partial profile has one finalizer for all nodes, so it protects at most one. */
  lemma {:induction false} PartialProfilesShare(c: Config, nodes: set<string>)
    requires c.partial
    ensures Separate(c, nodes) <==> forall n, m | n in nodes && m in nodes :: n == m
  {
    if n, m :| n in nodes && m in nodes && n != m {
      assert c.Removes(m, c.Own(n));
    }
  }

  /**
   What separates the nodes of a profile that is not partial, in terms of
   their names: no digest collision, and no name that reads like the shortened
   or the truncated form of another one.
   */
  lemma {:induction false} SeparateByNames(c: Config, nodes: set<string>)
    requires !c.partial && IsDigest(c.hex)
    ensures Separate(c, nodes) <==> forall n, m | n in nodes && m in nodes && n != m :: ApartByName(c.hex, n, m)
  {
    if Separate(c, nodes) {
      forall n, m | n in nodes && m in nodes && n != m
        ensures ApartByName(c.hex, n, m)
      {
        RemovesByName(c, n, m);
      }
    } else {
      var n, m :| n in nodes && m in nodes && n != m && c.Removes(m, c.Own(n));
      RemovesByName(c, n, m);
    }
  }

  /** What n's finalizer carries of its name is neither what m's carries, nor m's truncated name. */
  predicate ApartByName(hex: string -> string, n: string, m: string)
    requires IsDigest(hex)
  {
    Stem(hex, n) != Stem(hex, m) && (Fits(m) || Stem(hex, n) != m[..NAME_ROOM])
  }

  lemma {:induction false} RemovesByName(c: Config, n: string, m: string)
    requires !c.partial && IsDigest(c.hex)
    ensures c.Removes(m, c.Own(n)) <==> !ApartByName(c.hex, n, m)
  {
    NodeFinalizerShape(c.hex, n);
    NodeFinalizerShape(c.hex, m);
    AppendSuffix(Stem(c.hex, n), Stem(c.hex, m));
    LegacyCollision(c.hex, n, m);
  }

  /**
   A removal that goes through takes off exactly the node's two finalizers as
   they are stored at that moment, and collects the profile exactly if its
   deletion was requested and nothing else is left.
   */
  lemma {:induction false} RemovalTakesExactlyOwn(c: Config, s: State, n: string)
    requires Inv(c, s) && n in s.nodes && s.nodes[n].phase.Writing? && s.nodes[n].phase.op.Remove?
    requires s.stored.Present? && s.stored.profile.version == s.nodes[n].pol.version
    ensures var t := StepWrite(s, n);
            && !t.nodes[n].holds
            && (t.stored.Absent? <==>
                s.stored.profile.deleting && forall f | f in s.stored.profile.finalizers :: c.Removes(n, f))
            && (t.stored.Present? ==> forall f ::
                  f in t.stored.profile.finalizers <==> f in s.stored.profile.finalizers && !c.Removes(n, f))
  {
    assert WriteIsCurrent(c, s, n);
    var fs, left := s.stored.profile.finalizers, s.nodes[n].pol.finalizers;
    if left != [] {
      assert left[0] in left;
    }
  }

  // ---------------------------------------------------------------- the retry loops

  /** The node an event belongs to; the server side events belong to none. */
  predicate ActsFor(e: Event, n: string) {
    match e
    case RequestDeletion => false
    case OtherWriter(_) => false
    case Recreate(_) => false
    case _ => e.node == n
  }

  lemma {:induction false} OthersLeaveAlone(c: Config, s: State, trace: seq<Event>, n: string)
    requires n in s.nodes && forall e | e in trace :: !ActsFor(e, n)
    ensures n in Run(c, s, trace).nodes && Run(c, s, trace).nodes[n] == s.nodes[n]
    decreases |trace|
  {
    if trace != [] {
      var t := Step(c, s, trace[0]);
      assert !ActsFor(trace[0], n);
      assert n in t.nodes && t.nodes[n] == s.nodes[n];
      OthersLeaveAlone(c, t, trace[1..], n);
    }
  }

  /** One round: the others, the read and, unless nothing is to be changed, the others and the write. */
  ghost function Round(node: string, reading: seq<Event>, writing: seq<Event>, wrote: bool): seq<Event> {
    reading + [Read(node)] + if wrote then writing + [Write(node)] else []
  }

  /** The rounds of a retry loop, one for each entry of `wrote`. */
  ghost function Rounds(node: string, others: (nat, bool) -> seq<Event>, wrote: seq<bool>): seq<Event> {
    if wrote == [] then []
    else
      var k := |wrote| - 1;
      Rounds(node, others, wrote[..k]) + Round(node, others(k, false), others(k, true), wrote[k])
  }

  lemma {:induction false} RoundsNext(start: Event, node: string, others: (nat, bool) -> seq<Event>, wrote: seq<bool>,
                                      w: bool)
    ensures [start] + Rounds(node, others, wrote + [w])
         == [start] + Rounds(node, others, wrote) + Round(node, others(|wrote|, false), others(|wrote|, true), w)
  {
    assert (wrote + [w])[..|wrote|] == wrote;
    assert Rounds(node, others, wrote + [w])
        == Rounds(node, others, wrote) + Round(node, others(|wrote|, false), others(|wrote|, true), w);
  }

  function Start(node: string, op: Operation): Event {
    if op.Add? then CreateFinalizer(node) else RemoveFinalizer(node)
  }

  /** The stored profile is as the operation wants it. */
  predicate Done(c: Config, s: State, node: string, op: Operation) {
    match op
    case Add => s.stored.Present? && c.Own(node) in s.stored.profile.finalizers
    case Remove => s.stored.Present? ==> forall f | f in s.stored.profile.finalizers :: !c.Removes(node, f)
  }

  /** The attempt reached its goal. */
  predicate Succeeded(c: Config, s: State, node: string, op: Operation)
    requires node in s.nodes
  {
    s.nodes[node].phase.Idle? && Done(c, s, node, op) && (op.Add? ==> s.nodes[node].holds)
  }

  /** The attempt failed: the next one follows, or there is none left. */
  predicate GoesOn(s: State, node: string, op: Operation, attempt: nat, held: bool)
    requires node in s.nodes
  {
    && s.nodes[node].holds == held
    && s.nodes[node].phase == if attempt + 1 < 5 then Reading(op, attempt + 1) else Idle
  }

  /**
   What makes an attempt work whose read finds the state s: the profile is there,
   and it is as wanted already, or the others leave its version alone until the write.
   */
  predicate Works(c: Config, s: State, node: string, op: Operation, writing: seq<Event>) {
    && s.stored.Present?
    && (Done(c, s, node, op)
        || (var t := Run(c, Step(c, s, Read(node)), writing).stored;
            t.Present? && t.profile.version == s.stored.profile.version))
  }

  /** Round k of a retry loop works; `wrote` tells how the rounds before it went. */
  ghost predicate RoundWorks(c: Config, s: State, node: string, op: Operation, others: (nat, bool) -> seq<Event>,
                             wrote: seq<bool>, k: nat)
    requires k < |wrote|
  {
    var before := Run(c, s, [Start(node, op)] + Rounds(node, others, wrote[..k]));
    Works(c, Run(c, before, others(k, false)), node, op, others(k, true))
  }

  /** No round worked but the last one, and that exactly if the loop succeeded. */
  ghost predicate RoundsSoFar(c: Config, s: State, node: string, op: Operation, others: (nat, bool) -> seq<Event>,
                              wrote: seq<bool>, ok: bool)
  {
    && (forall k | 0 <= k < |wrote| - 1 :: !RoundWorks(c, s, node, op, others, wrote, k))
    && (wrote != [] ==> (ok <==> RoundWorks(c, s, node, op, others, wrote, |wrote| - 1)))
  }

  lemma {:induction false} SoFarNext(c: Config, s: State, node: string, op: Operation, others: (nat,
                                     bool) -> seq<Event>,
                  wrote: seq<bool>, w: bool, ok: bool)
    requires RoundsSoFar(c, s, node, op, others, wrote, false)
    requires var before := Run(c, s, [Start(node, op)] + Rounds(node, others, wrote));
             ok <==> Works(c, Run(c, before, others(|wrote|, false)), node, op, others(|wrote|, true))
    ensures RoundsSoFar(c, s, node, op, others, wrote + [w], ok)
  {
    var longer := wrote + [w];
    assert longer[..|wrote|] == wrote;
    forall k | 0 <= k < |wrote|
      ensures RoundWorks(c, s, node, op, others, longer, k) <==> RoundWorks(c, s, node, op, others, wrote, k)
    {
      assert longer[..k] == wrote[..k];
    }
  }

  lemma {:induction false} WithoutAbsent(fs: seq<string>, f: string)
    requires f !in fs
    ensures Without(fs, f) == fs
  {
    if fs != [] {
      WithoutAbsent(fs[1..], f);
    }
  }

  /** Whether the list of a stored profile needs an edit is whether it is not as wanted. */
  lemma {:induction false} EditIffNotDone(c: Config, s: State, node: string, op: Operation)
    requires s.stored.Present?
    ensures Edited(c, node, op, s.stored.profile.finalizers) == s.stored.profile.finalizers <==> Done(c, s, node, op)
  {
    var fs := s.stored.profile.finalizers;
    if op.Add? {
      AddedIsNoOp(fs, c.Own(node));
    } else if Done(c, s, node, op) {
      WithoutAbsent(fs, c.Own(node));
      if c.Legacy(node) != "" {
        WithoutAbsent(fs, c.Legacy(node));
      }
    }
  }

  /** A read fails, finds nothing to change, or leads to a write. */
  lemma {:induction false} AttemptRead(c: Config, s: State, node: string, op: Operation, attempt: nat)
    requires node in s.nodes && s.nodes[node].phase == Reading(op, attempt)
    ensures var t := Step(c, s, Read(node));
            && node in t.nodes
            && (t.nodes[node].phase.Writing? <==> s.stored.Present? && !Done(c, s, node, op))
            && if t.nodes[node].phase.Writing? then
                 && t.nodes[node].pol.version == s.stored.profile.version
                 && t.nodes[node].holds == s.nodes[node].holds
                 && t.nodes[node].phase.op == op
                 && t.nodes[node].phase.attempt == attempt
                 && t.nodes[node].pol.finalizers == Edited(c, node, op, t.nodes[node].phase.seen)
               else if s.stored.Present? then Succeeded(c, t, node, op)
               else GoesOn(t, node, op, attempt, s.nodes[node].holds)
  {
    if s.stored.Present? {
      EditIffNotDone(c, s, node, op);
    }
  }

  /** A write meets a conflict, or stores the edited list. */
  lemma {:induction false} AttemptWrite(c: Config, s: State, node: string, op: Operation, attempt: nat)
    requires node in s.nodes && s.nodes[node].phase.Writing?
    requires s.nodes[node].phase.op == op && s.nodes[node].phase.attempt == attempt
    requires s.nodes[node].pol.finalizers == Edited(c, node, op, s.nodes[node].phase.seen)
    ensures var t := Step(c, s, Write(node));
            && node in t.nodes
            && if s.stored.Present? && s.stored.profile.version == s.nodes[node].pol.version
               then Succeeded(c, t, node, op)
               else GoesOn(t, node, op, attempt, s.nodes[node].holds)
  {
    if s.stored.Present? && op.Add? {
      assert c.Own(node) in s.nodes[node].pol.finalizers;
    }
  }

  /** Whether an attempt works, as the loop finds it out. */
  lemma {:induction false} WorksAsSeen(c: Config, s: State, node: string, op: Operation, attempt: nat,
                                       writing: seq<Event>)
    requires node in s.nodes && s.nodes[node].phase == Reading(op, attempt)
    requires forall e | e in writing :: !ActsFor(e, node)
    ensures var t := Step(c, s, Read(node));
            && node in t.nodes && node in Run(c, t, writing).nodes
            && (Works(c, s, node, op, writing) <==>
                if t.nodes[node].phase.Writing? then
                  var w := Run(c, t, writing);
                  w.stored.Present? && w.stored.profile.version == w.nodes[node].pol.version
                else s.stored.Present?)
  {
    AttemptRead(c, s, node, op, attempt);
    OthersLeaveAlone(c, Step(c, s, Read(node)), writing, node);
  }

  /**
   One node daemon's view of the cluster. `Interleave` stands for everything
   the others do between two requests of this node.
   */
  class StatusClient {
    const config: Config
    const node: string
    var state: State

    constructor (config: Config, node: string, state: State)
      requires node in state.nodes
      ensures this.config == config && this.node == node && this.state == state
    {
      this.config, this.node, this.state := config, node, state;
    }

    method Act(e: Event, ghost before: State, ghost trace: seq<Event>) returns (ghost extended: seq<Event>)
      requires state == Run(config, before, trace)
      modifies this
      ensures state == Step(config, old(state), e)
      ensures extended == trace + [e] && state == Run(config, before, extended)
    {
      extended := trace + [e];
      RunConcat(config, before, trace, [e]);
      state := Step(config, state, e);
      assert Run(config, old(state), [e]) == state;
    }

    method Interleave(others: seq<Event>, ghost before: State, ghost trace: seq<Event>)
      returns (ghost extended: seq<Event>)
      requires node in state.nodes && forall e | e in others :: !ActsFor(e, node)
      requires state == Run(config, before, trace)
      modifies this
      ensures node in state.nodes && state.nodes[node] == old(state).nodes[node]
      ensures extended == trace + others && state == Run(config, before, extended)
      ensures state == Run(config, old(state), others)
    {
      extended := trace + others;
      RunConcat(config, before, trace, others);
      OthersLeaveAlone(config, state, others, node);
      state := Run(config, state, others);
    }

    /** One round of the loop: a read and, unless nothing is to be changed, a conditional write. */
    method Attempt(op: Operation, attempt: nat, reading: seq<Event>, writing: seq<Event>,
                   ghost before: State, ghost trace: seq<Event>)
      returns (ok: bool, ghost extended: seq<Event>, ghost wrote: bool)
      requires attempt < RETRY_STEPS && state == Run(config, before, trace)
      requires node in state.nodes && state.nodes[node].phase == Reading(op, attempt)
      requires forall e | e in reading + writing :: !ActsFor(e, node)
      modifies this
      ensures state == Run(config, before, extended) && node in state.nodes
      ensures extended == trace + Round(node, reading, writing, wrote)
      ensures ok <==> Works(config, Run(config, old(state), reading), node, op, writing)
      ensures if ok then Succeeded(config, state, node, op)
              else GoesOn(state, node, op, attempt, old(state).nodes[node].holds)
    {
      extended := Interleave(reading, before, trace);
      ok := state.stored.Present?;
      AttemptRead(config, state, node, op, attempt);
      WorksAsSeen(config, state, node, op, attempt, writing);
      extended := Act(Read(node), before, extended);
      wrote := state.nodes[node].phase.Writing?;
      if state.nodes[node].phase.Writing? {
        extended := Interleave(writing, before, extended);
        ok := state.stored.Present? && state.stored.profile.version == state.nodes[node].pol.version;
        AttemptWrite(config, state, node, op, attempt);
        extended := Act(Write(node), before, extended);
      }
    }

    /**
     `util.Retry` around AddFinalizer or RemoveFinalizers. Whatever the others
     do before each request, the loop makes at most five attempts, and what it
     did together with them is a run of the protocol. On success the stored
     profile has the node's finalizer, or neither of its two finalizers.
     */
    method RetryOperation(op: Operation, others: (nat, bool) -> seq<Event>)
      returns (ok: bool, ghost trace: seq<Event>, ghost wrote: seq<bool>)
      requires node in state.nodes && state.nodes[node].phase.Idle?
      requires op.Remove? ==> FinalizerExists(config, node, state.nodes[node].pol)
      requires forall k, writing :: forall e | e in others(k, writing) :: !ActsFor(e, node)
      modifies this
      ensures state == Run(config, old(state), trace)
      ensures trace == [Start(node, op)] + Rounds(node, others, wrote) && 1 <= |wrote| <= 5
      ensures ok <==> RoundWorks(config, old(state), node, op, others, wrote, |wrote| - 1)
      ensures forall k | 0 <= k < |wrote| - 1 :: !RoundWorks(config, old(state), node, op, others, wrote, k)
      ensures !ok ==> |wrote| == 5
      ensures node in state.nodes && state.nodes[node].phase.Idle?
      ensures ok ==> Succeeded(config, state, node, op)
      ensures !ok ==> state.nodes[node].holds == old(state).nodes[node].holds
    {
      ghost var before := state;
      ok, trace, wrote := false, [], [];
      trace := Act(Start(node, op), before, trace);
      var attempt := 0;
      while state.nodes[node].phase.Reading?
        invariant 0 <= attempt <= RETRY_STEPS
        invariant state == Run(config, before, trace) && node in state.nodes
        invariant trace == [Start(node, op)] + Rounds(node, others, wrote) && |wrote| == attempt
        invariant state.nodes[node].phase == if ok || attempt == 5 then Idle else Reading(op, attempt)
        invariant ok ==> attempt > 0
        invariant RoundsSoFar(config, before, node, op, others, wrote, ok)
        invariant ok ==> Succeeded(config, state, node, op)
        invariant !ok ==> state.nodes[node].holds == before.nodes[node].holds
        decreases RETRY_STEPS - attempt
      {
        ghost var w;
        ok, trace, w := Attempt(op, attempt, others(attempt, false), others(attempt, true), before, trace);
        RoundsNext(Start(node, op), node, others, wrote, w);
        SoFarNext(config, before, node, op, others, wrote, w, ok);
        wrote := wrote + [w];
        attempt := attempt + 1;
      }
    }

    /**
     createFinalizer: on success the node's finalizer is stored, and stays
     stored in every continuation in which the node keeps holding it.
     */
    method CreateNodeFinalizer(others: (nat, bool) -> seq<Event>) returns (ok: bool, ghost trace: seq<Event>)
      requires node in state.nodes && state.nodes[node].phase.Idle?
      requires Inv(config, state) && Separate(config, state.nodes.Keys)
      requires forall k, writing :: forall e | e in others(k, writing) :: !ActsFor(e, node)
      modifies this
      ensures state == Run(config, old(state), trace) && Inv(config, state)
      ensures ok ==> state.stored.Present? && config.Own(node) in state.stored.profile.finalizers
      ensures ok ==> forall later ::
                var t := Run(config, state, later);
                node in t.nodes && (t.nodes[node].holds ==>
                  t.stored.Present? && config.Own(node) in t.stored.profile.finalizers)
    {
      ghost var before := state;
      ghost var wrote;
      ok, trace, wrote := RetryOperation(Add, others);
      RunKeepsInv(config, before, trace);
      forall later
        ensures var t := Run(config, state, later);
                node in t.nodes && (t.nodes[node].holds ==>
                  t.stored.Present? && config.Own(node) in t.stored.profile.finalizers)
      {
        RunKeepsInv(config, state, later);
      }
    }
  }
}
