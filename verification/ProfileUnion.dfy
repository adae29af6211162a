/**
 The union of two AppArmor profiles. The merger library cannot handle paths
 that reference a variable, so those are taken out before and put back after
 the merge. The merger is a parameter, of which only its contract is known.
 */
module ProfileUnion {
  import opened Ordering
  import opened Wrappers

  datatype Executable = Executable(executables: seq<string>, libraries: seq<string>)

  datatype Filesystem = Filesystem(readOnly: seq<string>, writeOnly: seq<string>, readWrite: seq<string>)

  datatype Ptrace = Ptrace(access: seq<string>, peer: string)

  datatype Network = Network(raw: bool, tcp: bool, udp: bool)

  datatype Abstract = Abstract(
    executable: Option<Executable>,
    filesystem: Option<Filesystem>,
    network: Option<Network>,
    capabilities: Option<seq<string>>,
    ptrace: Option<Ptrace>)

  /** The upper and lower case of a string. */
  datatype Casing = Casing(upper: string -> string, lower: string -> string)

  /** The access a filesystem rule grants. */
  datatype Access = Access(read: bool, write: bool)

  const NONE := Access(false, false)

  function Or(a: Access, b: Access): Access {
    Access(a.read || b.read, a.write || b.write)
  }

  // ---------------------------------------------------------------- what a profile grants

  function ExecRules(p: Abstract): Executable {
    if p.executable.Some? then p.executable.value else Executable([], [])
  }

  function FsRules(p: Abstract): Filesystem {
    if p.filesystem.Some? then p.filesystem.value else Filesystem([], [], [])
  }

  function NetworkRules(p: Abstract): Network {
    if p.network.Some? then p.network.value else Network(false, false, false)
  }

  function Capabilities(p: Abstract): seq<string> {
    if p.capabilities.Some? then p.capabilities.value else []
  }

  function FsAccess(fs: Filesystem, path: string): Access {
    Access(path in fs.readOnly || path in fs.readWrite, path in fs.writeOnly || path in fs.readWrite)
  }

  function AccessOf(p: Abstract, path: string): Access {
    FsAccess(FsRules(p), path)
  }

  predicate HasVariable(path: string) {
    exists i | 0 <= i < |path| - 1 :: path[i] == '@' && path[i + 1] == '{'
  }

  /** A path references a variable if it holds the two characters that open one. */
  lemma {:induction false} VariableSpelled(path: string)
    ensures HasVariable(path) <==> exists a, b :: path == a + "@{" + b
  {
    if HasVariable(path) {
      var i :| 0 <= i < |path| - 1 && path[i] == '@' && path[i + 1] == '{';
      assert path == path[..i] + "@{" + path[i + 2..];
    }
    if a, b :| path == a + "@{" + b {
      assert path[|a|] == '@' && path[|a| + 1] == '{';
    }
  }

  predicate Plain(paths: seq<string>) {
    forall i | 0 <= i < |paths| :: !HasVariable(paths[i])
  }

  predicate VariableFree(p: Abstract) {
    && Plain(ExecRules(p).executables) && Plain(ExecRules(p).libraries)
    && Plain(FsRules(p).readOnly) && Plain(FsRules(p).writeOnly) && Plain(FsRules(p).readWrite)
  }

  /** How often a path is listed in the three file lists. */
  ghost function Listed(fs: Filesystem, path: string): nat {
    multiset(fs.readOnly)[path] + multiset(fs.writeOnly)[path] + multiset(fs.readWrite)[path]
  }

  ghost predicate Reads(p: Abstract, path: string) {
    p.filesystem.Some? && (path in p.filesystem.value.readOnly || path in p.filesystem.value.readWrite)
  }

  ghost predicate Writes(p: Abstract, path: string) {
    p.filesystem.Some? && (path in p.filesystem.value.writeOnly || path in p.filesystem.value.readWrite)
  }

  ghost predicate Raw(p: Abstract) {
    p.network.Some? && p.network.value.raw
  }

  ghost predicate Tcp(p: Abstract) {
    p.network.Some? && p.network.value.tcp
  }

  ghost predicate Udp(p: Abstract) {
    p.network.Some? && p.network.value.udp
  }

  /** u grants what either of a and b grants, and nothing else. */
  ghost predicate Unites(u: Abstract, a: Abstract, b: Abstract) {
    && (forall path :: AccessOf(u, path) == Or(AccessOf(a, path), AccessOf(b, path)))
    && (forall x :: x in ExecRules(u).executables <==> x in ExecRules(a).executables || x in ExecRules(b).executables)
    && (forall x :: x in ExecRules(u).libraries <==> x in ExecRules(a).libraries || x in ExecRules(b).libraries)
    && NetworkRules(u) == EitherNetwork(NetworkRules(a), NetworkRules(b))
  }

  function EitherNetwork(a: Network, b: Network): Network {
    Network(a.raw || b.raw, a.tcp || b.tcp, a.udp || b.udp)
  }

  /** The union rule by rule. */
  lemma {:induction false} UnitesSpelled(u: Abstract, a: Abstract, b: Abstract)
    requires Unites(u, a, b)
    ensures forall path :: Reads(u, path) <==> Reads(a, path) || Reads(b, path)
    ensures forall path :: Writes(u, path) <==> Writes(a, path) || Writes(b, path)
    ensures Raw(u) <==> Raw(a) || Raw(b)
    ensures Tcp(u) <==> Tcp(a) || Tcp(b)
    ensures Udp(u) <==> Udp(a) || Udp(b)
  {
    forall path
      ensures Reads(u, path) <==> Reads(a, path) || Reads(b, path)
      ensures Writes(u, path) <==> Writes(a, path) || Writes(b, path)
    {
      assert AccessOf(u, path) == Or(AccessOf(a, path), AccessOf(b, path));
    }
  }

  /** The capability is one of either profile, changed by f. */
  predicate IsCapability(f: string -> string, a: Abstract, b: Abstract, c: string) {
    exists x | x in Capabilities(a) + Capabilities(b) :: f(x) == c
  }

  type Merger = (Abstract, Abstract) -> Option<Abstract>

  function Merged(merger: Merger, a: Abstract, b: Abstract): Option<Abstract> {
    merger(a, b)
  }

  /**
   The merger's contract: on variable-free profiles it fails or returns their
   union, with the capabilities of both in upper case.
   */
  ghost predicate MergesPlain(merger: Merger, casing: Casing) {
    forall a, b | VariableFree(a) && VariableFree(b) && Merged(merger, a, b).Some? ::
      var u := Merged(merger, a, b).value;
      && VariableFree(u) && Unites(u, a, b)
      && forall c :: c in Capabilities(u) <==> IsCapability(casing.upper, a, b, c)
  }

  // ---------------------------------------------------------------- splitting

  function Keep(paths: seq<string>, variable: bool): seq<string> {
    if paths == [] then []
    else
      var k := |paths| - 1;
      if HasVariable(paths[k]) == variable then Keep(paths[..k], variable) + [paths[k]] else Keep(paths[..k], variable)
  }

  lemma {:induction false} KeepMembers(paths: seq<string>, variable: bool)
    ensures forall x :: x in Keep(paths, variable) <==> x in paths && HasVariable(x) == variable
    ensures !variable ==> Plain(Keep(paths, variable))
    decreases |paths|
  {
    if paths != [] {
      var k := |paths| - 1;
      assert paths == paths[..k] + [paths[k]];
      KeepMembers(paths[..k], variable);
    }
  }

  /** The profile without the paths that reference a variable. */
  function Rest(p: Abstract): Abstract {
    p.(executable := if p.executable.None? then None
                     else Some(Executable(Keep(p.executable.value.executables, false),
                                          Keep(p.executable.value.libraries, false))),
    filesystem := if p.filesystem.None? then None
                  else Some(Filesystem(Keep(p.filesystem.value.readOnly, false),
                                       Keep(p.filesystem.value.writeOnly, false),
                                       Keep(p.filesystem.value.readWrite, false))))
  }

  lemma {:induction false} RestGrants(p: Abstract)
    ensures VariableFree(Rest(p))
    ensures forall path :: AccessOf(Rest(p), path) == if HasVariable(path) then NONE else AccessOf(p, path)
    ensures forall x :: x in ExecRules(Rest(p)).executables <==> x in ExecRules(p).executables && !HasVariable(x)
    ensures forall x :: x in ExecRules(Rest(p)).libraries <==> x in ExecRules(p).libraries && !HasVariable(x)
  {
    KeepMembers(ExecRules(p).executables, false);
    KeepMembers(ExecRules(p).libraries, false);
    KeepMembers(FsRules(p).readOnly, false);
    KeepMembers(FsRules(p).writeOnly, false);
    KeepMembers(FsRules(p).readWrite, false);
  }

  /** The paths of a profile that reference a variable, files with the access they are granted. */
  datatype Variables = Variables(executables: seq<string>, libraries: seq<string>, files: map<string, Access>)

  ghost predicate FilesOf(files: map<string, Access>, p: Abstract) {
    && (forall path :: path in files <==> HasVariable(path) && AccessOf(p, path) != NONE)
    && (forall path | path in files :: files[path] == AccessOf(p, path))
  }

  ghost predicate VariablesOf(v: Variables, p: Abstract) {
    && v.executables == Keep(ExecRules(p).executables, true)
    && v.libraries == Keep(ExecRules(p).libraries, true)
    && FilesOf(v.files, p)
  }

  /** Splits one list of paths. */
  method SplitPaths(paths: seq<string>) returns (kept: seq<string>, variable: seq<string>)
    ensures kept == Keep(paths, false) && variable == Keep(paths, true)
  {
    kept, variable := [], [];
    for i := 0 to |paths|
      invariant kept == Keep(paths[..i], false) && variable == Keep(paths[..i], true)
    {
      assert paths[..i + 1][..i] == paths[..i];
      if HasVariable(paths[i]) {
        variable := variable + [paths[i]];
      } else {
        kept := kept + [paths[i]];
      }
    }
    assert paths[..|paths|] == paths;
  }

  function Granted(files: map<string, Access>, path: string): Access {
    if path in files then files[path] else NONE
  }

  /** Splits a list of files, adding its access for every one that references a variable. */
  method SplitFiles(paths: seq<string>, access: Access, files: map<string, Access>)
    returns (kept: seq<string>, files': map<string, Access>)
    ensures kept == Keep(paths, false)
    ensures forall p :: p in files' <==> p in files || (p in paths && HasVariable(p))
    ensures forall p :: Granted(files', p) ==
              if p in paths && HasVariable(p) then Or(Granted(files, p), access) else Granted(files, p)
  {
    kept, files' := [], files;
    for i := 0 to |paths|
      invariant kept == Keep(paths[..i], false)
      invariant forall p :: p in files' <==> p in files || (p in paths[..i] && HasVariable(p))
      invariant forall p :: Granted(files', p) ==
                  if p in paths[..i] && HasVariable(p) then Or(Granted(files, p), access) else Granted(files, p)
    {
      assert paths[..i + 1] == paths[..i] + [paths[i]] && paths[..i + 1][..i] == paths[..i];
      if HasVariable(paths[i]) {
        files' := files'[paths[i] := Or(Granted(files', paths[i]), access)];
      } else {
        kept := kept + [paths[i]];
      }
    }
    assert paths[..|paths|] == paths;
  }

  /** splitVariablePaths. */
  method SplitVariablePaths(p: Abstract) returns (rest: Abstract, v: Variables)
    ensures rest == Rest(p) && VariablesOf(v, p)
  {
    rest := p;
    var executables: seq<string>, libraries: seq<string> := [], [];
    var files: map<string, Access> := map[];
    if p.executable.Some? {
      var keptE, keptL;
      keptE, executables := SplitPaths(p.executable.value.executables);
      keptL, libraries := SplitPaths(p.executable.value.libraries);
      rest := rest.(executable := Some(Executable(keptE, keptL)));
    }
    if p.filesystem.Some? {
      var r, w, rw;
      r, files := SplitFiles(p.filesystem.value.readOnly, Access(true, false), files);
      w, files := SplitFiles(p.filesystem.value.writeOnly, Access(false, true), files);
      rw, files := SplitFiles(p.filesystem.value.readWrite, Access(true, true), files);
      rest := rest.(filesystem := Some(Filesystem(r, w, rw)));
    }
    v := Variables(executables, libraries, files);
    assert forall path | path in files :: files[path] == Granted(files, path);
  }

  // ---------------------------------------------------------------- putting the paths back

  function AppendFile(fs: Filesystem, path: string, access: Access): Filesystem {
    if access == Access(true, false) then fs.(readOnly := fs.readOnly + [path])
    else if access == Access(false, true) then fs.(writeOnly := fs.writeOnly + [path])
    else fs.(readWrite := fs.readWrite + [path])
  }

  lemma {:induction false} AppendFileGrants(fs: Filesystem, path: string, access: Access)
    requires access != NONE
    ensures forall p :: FsAccess(AppendFile(fs, path, access), p) ==
              if p == path then Or(FsAccess(fs, p), access) else FsAccess(fs, p)
    ensures forall p :: Listed(AppendFile(fs, path, access), p) == Listed(fs, p) + if p == path then 1 else 0
  {
  }

  function SortFiles(fs: Filesystem): Filesystem {
    Filesystem(Sort(StringLe, fs.readOnly), Sort(StringLe, fs.writeOnly), Sort(StringLe, fs.readWrite))
  }

  lemma {:induction false} SortMembers(s: seq<string>)
    ensures multiset(Sort(StringLe, s)) == multiset(s)
    ensures forall x :: x in Sort(StringLe, s) <==> x in s
  {
    StringOrder();
    SortSorts(StringLe, s);
    forall x
      ensures x in Sort(StringLe, s) <==> x in s
    {
      assert x in multiset(Sort(StringLe, s)) <==> x in multiset(s);
    }
  }

  lemma {:induction false} SortFilesGrants(fs: Filesystem)
    ensures forall p :: FsAccess(SortFiles(fs), p) == FsAccess(fs, p) && Listed(SortFiles(fs), p) == Listed(fs, p)
  {
    SortMembers(fs.readOnly);
    SortMembers(fs.writeOnly);
    SortMembers(fs.readWrite);
  }

  /** r is fs with the files in done added, each listed once more and granted its access. */
  ghost predicate FilesAdded(r: Filesystem, fs: Filesystem, files: map<string, Access>, done: set<string>)
    requires done <= files.Keys
  {
    && (forall p :: FsAccess(r, p) == if p in done then Or(FsAccess(fs, p), files[p]) else FsAccess(fs, p))
    && (forall p :: Listed(r, p) == Listed(fs, p) + if p in done then 1 else 0)
  }

  lemma {:induction false} FilesAddedNext(r: Filesystem, fs: Filesystem, files: map<string, Access>,
                                          done: set<string>, path: string)
    requires done <= files.Keys && FilesAdded(r, fs, files, done)
    requires path in files && path !in done && files[path] != NONE
    ensures FilesAdded(AppendFile(r, path, files[path]), fs, files, done + {path})
  {
    AppendFileGrants(r, path, files[path]);
  }

  lemma {:induction false} FilesAddedSorted(r: Filesystem, fs: Filesystem, files: map<string, Access>)
    requires FilesAdded(r, fs, files, files.Keys)
    ensures FilesAdded(SortFiles(r), fs, files, files.Keys)
  {
    SortFilesGrants(r);
  }

  ghost predicate SortedLists(fs: Filesystem) {
    Sorted(StringLe, fs.readOnly) && Sorted(StringLe, fs.writeOnly) && Sorted(StringLe, fs.readWrite)
  }

  /** Adds every file once, to the list of its access, in whatever order the map iterates. */
  method AddFiles(fs: Filesystem, files: map<string, Access>) returns (r: Filesystem)
    requires forall p | p in files :: files[p] != NONE
    ensures FilesAdded(r, fs, files, files.Keys) && SortedLists(r)
  {
    r := fs;
    var rest, done := files.Keys, {};
    while rest != {}
      invariant rest + done == files.Keys && rest !! done
      invariant FilesAdded(r, fs, files, done)
    {
      var p :| p in rest;
      FilesAddedNext(r, fs, files, done, p);
      r := AppendFile(r, p, files[p]);
      rest, done := rest - {p}, done + {p};
    }
    FilesAddedSorted(r, fs, files);
    StringOrder();
    SortSorts(StringLe, r.readOnly);
    SortSorts(StringLe, r.writeOnly);
    SortSorts(StringLe, r.readWrite);
    r := SortFiles(r);
  }

  /** sortedUnion: sorted and without repetition, unless there is nothing to add. */
  function SortedUnion(paths: seq<string>, more: seq<string>): seq<string> {
    if more == [] then paths else SortCompact(StringLe, paths + more)
  }

  lemma {:induction false} SortedUnionMembers(paths: seq<string>, more: seq<string>)
    ensures forall x :: x in SortedUnion(paths, more) <==> x in paths || x in more
    ensures more != [] ==> Ascending(StringLe, SortedUnion(paths, more))
  {
    StringOrder();
    SortCompactLists(StringLe, paths + more);
  }

  /** Maps.Clone of the left files, with the access of the right ones added. */
  method UniteFiles(left: map<string, Access>, right: map<string, Access>) returns (files: map<string, Access>)
    ensures files.Keys == left.Keys + right.Keys
    ensures forall p :: Granted(files, p) == Or(Granted(left, p), Granted(right, p))
  {
    files := left;
    var rest := right.Keys;
    while rest != {}
      invariant rest <= right.Keys && files.Keys == left.Keys + (right.Keys - rest)
      invariant forall p :: Granted(files, p) ==
                  if p in right.Keys - rest then Or(Granted(left, p), right[p]) else Granted(left, p)
    {
      var p :| p in rest;
      files := files[p := Or(Granted(files, p), right[p])];
      rest := rest - {p};
    }
  }

  ghost predicate ExecutablesAdded(r: Executable, merged: Executable, left: Variables, right: Variables) {
    && (forall x :: x in r.executables <==>
          x in merged.executables || x in left.executables || x in right.executables)
    && (forall x :: x in r.libraries <==>
          x in merged.libraries || x in left.libraries || x in right.libraries)
  }

  /** The lists that got something added are sorted, those of executables also without repetition. */
  ghost predicate SortedWhereAdded(r: Abstract, left: Variables, right: Variables) {
    && (left.executables + right.executables != [] ==> Ascending(StringLe, ExecRules(r).executables))
    && (left.libraries + right.libraries != [] ==> Ascending(StringLe, ExecRules(r).libraries))
    && (left.files.Keys + right.files.Keys != {} ==> SortedLists(FsRules(r)))
  }

  ghost predicate VariableFilesAdded(r: Filesystem, merged: Filesystem, left: Variables, right: Variables) {
    && (forall p :: FsAccess(r, p) == Or(FsAccess(merged, p), Or(Granted(left.files, p), Granted(right.files, p))))
    && (forall p :: Listed(r, p) == Listed(merged, p) + if p in left.files || p in right.files then 1 else 0)
  }

  ghost predicate GrantsSomething(files: map<string, Access>) {
    forall p | p in files :: files[p] != NONE
  }

  /** addVariablePaths. */
  method AddVariablePaths(merged: Abstract, left: Variables, right: Variables) returns (r: Abstract)
    requires GrantsSomething(left.files) && GrantsSomething(right.files)
    ensures r.ptrace == merged.ptrace && r.network == merged.network && r.capabilities == merged.capabilities
    ensures ExecutablesAdded(ExecRules(r), ExecRules(merged), left, right)
    ensures VariableFilesAdded(FsRules(r), FsRules(merged), left, right)
    ensures SortedWhereAdded(r, left, right)
  {
    r := merged;
    var executables, libraries := left.executables + right.executables, left.libraries + right.libraries;
    if |executables| > 0 || |libraries| > 0 {
      var rules := ExecRules(merged);
      SortedUnionMembers(rules.executables, executables);
      SortedUnionMembers(rules.libraries, libraries);
      r := r.(executable := Some(Executable(SortedUnion(rules.executables, executables),
                                            SortedUnion(rules.libraries, libraries))));
    }
    var files := UniteFiles(left.files, right.files);
    UnitedGrant(left, right, files);
    if |files| == 0 {
      assert files.Keys == {};
      NothingAdded(FsRules(merged), left, right);
      return;
    }
    var fs := AddFiles(FsRules(merged), files);
    AllAdded(fs, FsRules(merged), left, right, files);
    r := r.(filesystem := Some(fs));
  }

  lemma {:induction false} UnitedGrant(left: Variables, right: Variables, files: map<string, Access>)
    requires GrantsSomething(left.files) && GrantsSomething(right.files)
    requires files.Keys == left.files.Keys + right.files.Keys
    requires forall p :: Granted(files, p) == Or(Granted(left.files, p), Granted(right.files, p))
    ensures GrantsSomething(files)
  {
    forall p | p in files
      ensures files[p] != NONE
    {
      assert files[p] == Granted(files, p);
    }
  }

  lemma {:induction false} NothingAdded(fs: Filesystem, left: Variables, right: Variables)
    requires left.files.Keys == {} && right.files.Keys == {}
    ensures VariableFilesAdded(fs, fs, left, right)
  {
  }

  lemma {:induction false} AllAdded(r: Filesystem, fs: Filesystem, left: Variables, right: Variables,
                                    files: map<string, Access>)
    requires files.Keys == left.files.Keys + right.files.Keys
    requires forall p :: Granted(files, p) == Or(Granted(left.files, p), Granted(right.files, p))
    requires FilesAdded(r, fs, files, files.Keys)
    ensures VariableFilesAdded(r, fs, left, right)
  {
    forall p
      ensures FsAccess(r, p) == Or(FsAccess(fs, p), Or(Granted(left.files, p), Granted(right.files, p)))
    {
      assert p !in files ==> Granted(files, p) == NONE;
      assert p in files ==> Granted(files, p) == files[p];
    }
  }

  // ---------------------------------------------------------------- ptrace

  function PtraceOr(p: Option<Ptrace>): Ptrace {
    if p.Some? then p.value else Ptrace([], "")
  }

  /** unionPtrace: one rule for both; rules for different peers become a rule for every peer. */
  function UnionPtrace(l: Option<Ptrace>, r: Option<Ptrace>): Option<Ptrace> {
    var left, right := PtraceOr(l), PtraceOr(r);
    var access := left.access + right.access;
    if access == [] then None
    else
      var peer := if left.access == [] then right.peer
                  else if right.access == [] then left.peer
                  else if left.peer != right.peer then ""
                  else left.peer;
      Some(Ptrace(SortCompact(StringLe, access), peer))
  }

  /** An empty peer stands for every peer. */
  predicate Grants(p: Option<Ptrace>, access: string, peer: string) {
    p.Some? && access in p.value.access && (p.value.peer == "" || p.value.peer == peer)
  }

  ghost predicate Covers(u: Option<Ptrace>, p: Option<Ptrace>) {
    forall access, peer | Grants(p, access, peer) :: Grants(u, access, peer)
  }

  lemma {:induction false} UnionAccess(l: Option<Ptrace>, r: Option<Ptrace>)
    ensures var u := UnionPtrace(l, r);
            && (u.None? <==> PtraceOr(l).access == [] && PtraceOr(r).access == [])
            && (forall a :: a in PtraceOr(u).access <==> a in PtraceOr(l).access || a in PtraceOr(r).access)
            && Ascending(StringLe, PtraceOr(u).access)
            && (u.Some? ==> u.value.access != [])
  {
    var access := PtraceOr(l).access + PtraceOr(r).access;
    StringOrder();
    SortCompactLists(StringLe, access);
    if access != [] {
      assert access[0] in access;
    }
  }

  /** The union is the least single rule that grants what either rule grants. */
  lemma {:induction false} UnionPtraceLeast(l: Option<Ptrace>, r: Option<Ptrace>, u: Option<Ptrace>)
    ensures Covers(UnionPtrace(l, r), l) && Covers(UnionPtrace(l, r), r)
    ensures Covers(u, l) && Covers(u, r) ==> Covers(u, UnionPtrace(l, r))
  {
    UnionAccess(l, r);
    if Covers(u, l) && Covers(u, r) {
      var v := UnionPtrace(l, r);
      forall access, peer | Grants(v, access, peer)
        ensures Grants(u, access, peer)
      {
        if access in PtraceOr(l).access {
          CoveredBy(u, l, r, access, peer);
        } else {
          UnionPtraceCommutes(l, r);
          CoveredBy(u, r, l, access, peer);
        }
      }
    }
  }

  lemma {:induction false} CoveredBy(u: Option<Ptrace>, l: Option<Ptrace>, r: Option<Ptrace>, access: string,
                                     peer: string)
    requires Covers(u, l) && Covers(u, r) && access in PtraceOr(l).access
    requires Grants(UnionPtrace(l, r), access, peer)
    ensures Grants(u, access, peer)
  {
    var left, right := PtraceOr(l), PtraceOr(r);
    assert Grants(l, access, left.peer);
    if left.peer == "" {
      assert Grants(l, access, peer);
    } else if right.access != [] && right.peer != left.peer {
      // u grants something to two different peers, so it has none of its own.
      assert right.access[0] in right.access && Grants(r, right.access[0], right.peer);
      if right.peer == "" {
        assert Grants(r, right.access[0], left.peer + "x") && Grants(r, right.access[0], left.peer);
        assert left.peer + "x" != left.peer;
      }
    }
  }

  lemma {:induction false} UnionPtraceCommutes(l: Option<Ptrace>, r: Option<Ptrace>)
    ensures UnionPtrace(l, r) == UnionPtrace(r, l)
  {
    UnionAccess(l, r);
    UnionAccess(r, l);
    StringOrder();
    AscendingUnique(StringLe, PtraceOr(UnionPtrace(l, r)).access, PtraceOr(UnionPtrace(r, l)).access);
  }

  lemma {:induction false} UnionPtraceAssociates(a: Option<Ptrace>, b: Option<Ptrace>, c: Option<Ptrace>)
    ensures UnionPtrace(UnionPtrace(a, b), c) == UnionPtrace(a, UnionPtrace(b, c))
  {
    UnionAccess(a, b);
    UnionAccess(b, c);
    UnionAccess(UnionPtrace(a, b), c);
    UnionAccess(a, UnionPtrace(b, c));
    StringOrder();
    AscendingUnique(StringLe, PtraceOr(UnionPtrace(UnionPtrace(a, b), c)).access,
                    PtraceOr(UnionPtrace(a, UnionPtrace(b, c))).access);
  }

  /**
   Uniting a rule with itself always grants what the rule grants, and is the
   rule itself exactly if it grants something and lists it sorted, once each.
   */
  lemma {:induction false} UnionPtraceIdempotent(p: Option<Ptrace>)
    ensures Covers(UnionPtrace(p, p), p) && Covers(p, UnionPtrace(p, p))
    ensures UnionPtrace(p, p) == p <==> (p.Some? ==> p.value.access != [] && Ascending(StringLe, p.value.access))
  {
    UnionPtraceLeast(p, p, p);
    if p.Some? {
      var access := p.value.access;
      StringOrder();
      SortCompactLists(StringLe, access + access);
      if access != [] && Ascending(StringLe, access) {
        SortCompactUnique(StringLe, access + access, access);
      }
    }
  }

  // ---------------------------------------------------------------- the union

  function Lowered(casing: Casing, capabilities: seq<string>): seq<string> {
    seq(|capabilities|, i requires 0 <= i < |capabilities| => casing.lower(capabilities[i]))
  }

  /** LowerCapabilities: sorted and without duplicates. */
  method LowerCapabilities(casing: Casing, capabilities: seq<string>) returns (r: seq<string>)
    ensures Ascending(StringLe, r)
    ensures forall c :: c in r <==> exists x | x in capabilities :: casing.lower(x) == c
  {
    var result := [];
    for i := 0 to |capabilities|
      invariant result == Lowered(casing, capabilities[..i])
    {
      assert Lowered(casing, capabilities[..i + 1])
          == Lowered(casing, capabilities[..i]) + [casing.lower(capabilities[i])];
      result := result + [casing.lower(capabilities[i])];
    }
    assert capabilities[..|capabilities|] == capabilities;
    StringOrder();
    SortCompactLists(StringLe, result);
    r := SortCompact(StringLe, result);
    LoweredMembers(casing, capabilities);
  }

  lemma {:induction false} LoweredMembers(casing: Casing, capabilities: seq<string>)
    ensures forall c :: c in Lowered(casing, capabilities) <==> exists x | x in capabilities :: casing.lower(x) == c
  {
    forall x | x in capabilities
      ensures casing.lower(x) in Lowered(casing, capabilities)
    {
      var i :| 0 <= i < |capabilities| && capabilities[i] == x;
      assert Lowered(casing, capabilities)[i] == casing.lower(x);
    }
  }

  /** The capability is in the lower case the API accepts, which upper-casing and lower-casing restores. */
  predicate LowerCase(casing: Casing, c: string) {
    casing.lower(casing.upper(c)) == c
  }

  /** r lists the capabilities of both profiles, once each and sorted. */
  ghost predicate UnitesCapabilities(casing: Casing, r: Abstract, a: Abstract, b: Abstract) {
    && Ascending(StringLe, Capabilities(r))
    && (forall c :: c in Capabilities(r) <==> IsCapability(x => casing.lower(casing.upper(x)), a, b, c))
    && ((forall x | x in Capabilities(a) + Capabilities(b) :: LowerCase(casing, x)) ==>
          forall c :: c in Capabilities(r) <==> c in Capabilities(a) || c in Capabilities(b))
  }

  /** Lower-casing what the merger upper-cased. */
  lemma {:induction false} CapabilitiesUnited(casing: Casing, merged: Abstract, r: Abstract, a: Abstract, b: Abstract)
    requires forall c :: c in Capabilities(merged) <==> IsCapability(casing.upper, a, b, c)
    requires forall c :: c in Capabilities(r) <==> exists x | x in Capabilities(merged) :: casing.lower(x) == c
    requires Ascending(StringLe, Capabilities(r))
    ensures UnitesCapabilities(casing, r, a, b)
  {
    var lowered := Capabilities(r);
    forall c
      ensures c in lowered <==> IsCapability(x => casing.lower(casing.upper(x)), a, b, c)
    {
      if c in lowered {
        var u :| u in Capabilities(merged) && casing.lower(u) == c;
        var x :| x in Capabilities(a) + Capabilities(b) && casing.upper(x) == u;
      }
      if IsCapability(x => casing.lower(casing.upper(x)), a, b, c) {
        var x :| x in Capabilities(a) + Capabilities(b) && casing.lower(casing.upper(x)) == c;
        assert IsCapability(casing.upper, a, b, casing.upper(x));
      }
    }
    if forall x | x in Capabilities(a) + Capabilities(b) :: LowerCase(casing, x) {
      forall c
        ensures c in lowered <==> c in Capabilities(a) || c in Capabilities(b)
      {
        if c in lowered {
          var x :| x in Capabilities(a) + Capabilities(b) && casing.lower(casing.upper(x)) == c;
          assert LowerCase(casing, x);
        }
        if c in Capabilities(a) || c in Capabilities(b) {
          assert c in Capabilities(a) + Capabilities(b) && LowerCase(casing, c);
        }
      }
    }
  }

  /** What the merger promises of the two variable-free rests. */
  lemma {:induction false} MergedRest(merger: Merger, casing: Casing, a: Abstract, b: Abstract)
    requires MergesPlain(merger, casing) && Merged(merger, Rest(a), Rest(b)).Some?
    ensures var u := Merged(merger, Rest(a), Rest(b)).value;
            && VariableFree(u) && Unites(u, Rest(a), Rest(b))
            && forall c :: c in Capabilities(u) <==> IsCapability(casing.upper, a, b, c)
  {
    RestGrants(a);
    RestGrants(b);
    forall c
      ensures IsCapability(casing.upper, Rest(a), Rest(b), c) <==> IsCapability(casing.upper, a, b, c)
    {
      assert Capabilities(Rest(a)) == Capabilities(a) && Capabilities(Rest(b)) == Capabilities(b);
    }
  }

  /** The merger on the variable-free rests, with its capabilities lower-cased again. */
  method MergeRests(left: Abstract, right: Abstract, merger: Merger, casing: Casing,
                    ghost base: Abstract, ghost additions: Abstract)
    returns (r: Option<Abstract>)
    requires MergesPlain(merger, casing) && left == Rest(base) && right == Rest(additions)
    ensures r.None? <==> Merged(merger, left, right).None?
    ensures r.Some? ==> VariableFree(r.value) && Unites(r.value, left, right)
    ensures r.Some? ==> UnitesCapabilities(casing, r.value, base, additions)
  {
    var merged := Merged(merger, left, right);
    if merged.None? {
      return None;
    }
    MergedRest(merger, casing, base, additions);
    var result := merged.value;
    if result.capabilities.Some? {
      var lowered := LowerCapabilities(casing, result.capabilities.value);
      result := result.(capabilities := Some(lowered));
    }
    CapabilitiesUnited(casing, merged.value, result, base, additions);
    return Some(result);
  }

  ghost predicate ListedOnce(r: Abstract) {
    forall path | HasVariable(path) :: Listed(FsRules(r), path) == if AccessOf(r, path) == NONE then 0 else 1
  }

  /** Paths, network, capabilities and ptrace of both profiles, and nothing else. */
  ghost predicate IsUnion(casing: Casing, r: Abstract, a: Abstract, b: Abstract) {
    && Unites(r, a, b) && ListedOnce(r)
    && UnitesCapabilities(casing, r, a, b)
    && r.ptrace == UnionPtrace(a.ptrace, b.ptrace)
  }

  /** Lists that hold a path with a variable are sorted, those of executables also without repetition. */
  ghost predicate SortedWithVariables(r: Abstract, a: Abstract, b: Abstract) {
    && ((exists x :: x in ExecRules(a).executables + ExecRules(b).executables && HasVariable(x)) ==>
          Ascending(StringLe, ExecRules(r).executables))
    && ((exists x :: x in ExecRules(a).libraries + ExecRules(b).libraries && HasVariable(x)) ==>
          Ascending(StringLe, ExecRules(r).libraries))
    && ((exists x :: HasVariable(x) && Or(AccessOf(a, x), AccessOf(b, x)) != NONE) ==> SortedLists(FsRules(r)))
  }

  lemma {:induction false} SortedFromAdded(r: Abstract, left: Variables, right: Variables, a: Abstract, b: Abstract)
    requires VariablesOf(left, a) && VariablesOf(right, b) && SortedWhereAdded(r, left, right)
    ensures SortedWithVariables(r, a, b)
  {
    KeepMembers(ExecRules(a).executables, true);
    KeepMembers(ExecRules(b).executables, true);
    KeepMembers(ExecRules(a).libraries, true);
    KeepMembers(ExecRules(b).libraries, true);
    if x :| x in ExecRules(a).executables + ExecRules(b).executables && HasVariable(x) {
      assert x in left.executables + right.executables;
    }
    if x :| x in ExecRules(a).libraries + ExecRules(b).libraries && HasVariable(x) {
      assert x in left.libraries + right.libraries;
    }
    if x :| HasVariable(x) && Or(AccessOf(a, x), AccessOf(b, x)) != NONE {
      assert x in left.files.Keys + right.files.Keys;
    }
  }

  lemma {:induction false} UnionOfAll(casing: Casing, a: Abstract, b: Abstract, merged: Abstract, r: Abstract,
                   left: Variables, right: Variables)
    requires Unites(merged, Rest(a), Rest(b)) && VariableFree(merged) && UnitesCapabilities(casing, merged, a, b)
    requires VariablesOf(left, a) && VariablesOf(right, b)
    requires r.network == merged.network && r.capabilities == merged.capabilities
    requires ExecutablesAdded(ExecRules(r), ExecRules(merged), left, right)
    requires VariableFilesAdded(FsRules(r), FsRules(merged), left, right)
    ensures IsUnion(casing, r.(ptrace := UnionPtrace(a.ptrace, b.ptrace)), a, b)
  {
    var u := r.(ptrace := UnionPtrace(a.ptrace, b.ptrace));
    assert ExecRules(u) == ExecRules(r) && FsRules(u) == FsRules(r);
    UnionOfExecutables(a, b, merged, ExecRules(r), left, right);
    UnionOfFiles(a, b, merged, FsRules(r), left, right);
  }

  /**
   UnionAppArmor. For any merger that unites variable-free profiles, the result
   grants every path exactly the access either profile grants it, and every
   granted file that references a variable is listed once, in one list.
   */
  method UnionAppArmor(base: Abstract, additions: Abstract, merger: Merger, casing: Casing)
    returns (r: Option<Abstract>)
    requires MergesPlain(merger, casing)
    ensures r.None? <==> Merged(merger, Rest(base), Rest(additions)).None?
    ensures r.Some? ==> IsUnion(casing, r.value, base, additions)
    ensures r.Some? ==> SortedWithVariables(r.value, base, additions)
  {
    var left, leftVariables := SplitVariablePaths(base);
    var right, rightVariables := SplitVariablePaths(additions);
    var merged := MergeRests(left, right, merger, casing, base, additions);
    if merged.None? {
      return None;
    }
    var result := AddVariablePaths(merged.value, leftVariables, rightVariables);
    UnionOfAll(casing, base, additions, merged.value, result, leftVariables, rightVariables);
    SortedFromAdded(result.(ptrace := UnionPtrace(base.ptrace, additions.ptrace)), leftVariables, rightVariables,
                    base, additions);
    result := result.(ptrace := UnionPtrace(base.ptrace, additions.ptrace));
    return Some(result);
  }

  lemma {:induction false} UnionOfExecutables(a: Abstract, b: Abstract, merged: Abstract, r: Executable,
                                              left: Variables, right: Variables)
    requires Unites(merged, Rest(a), Rest(b)) && VariablesOf(left, a) && VariablesOf(right, b)
    requires ExecutablesAdded(r, ExecRules(merged), left, right)
    ensures forall x :: x in r.executables <==> x in ExecRules(a).executables || x in ExecRules(b).executables
    ensures forall x :: x in r.libraries <==> x in ExecRules(a).libraries || x in ExecRules(b).libraries
  {
    RestGrants(a);
    RestGrants(b);
    KeepMembers(ExecRules(a).executables, true);
    KeepMembers(ExecRules(a).libraries, true);
    KeepMembers(ExecRules(b).executables, true);
    KeepMembers(ExecRules(b).libraries, true);
  }

  lemma {:induction false} UnionOfFiles(a: Abstract, b: Abstract, merged: Abstract, r: Filesystem, left: Variables,
                                        right: Variables)
    requires Unites(merged, Rest(a), Rest(b)) && VariableFree(merged)
    requires FilesOf(left.files, a) && FilesOf(right.files, b)
    requires VariableFilesAdded(r, FsRules(merged), left, right)
    ensures forall p :: FsAccess(r, p) == Or(AccessOf(a, p), AccessOf(b, p))
    ensures forall p | HasVariable(p) :: Listed(r, p) == if FsAccess(r, p) == NONE then 0 else 1
  {
    forall p
      ensures FsAccess(r, p) == Or(AccessOf(a, p), AccessOf(b, p))
      ensures HasVariable(p) ==> Listed(r, p) == if FsAccess(r, p) == NONE then 0 else 1
    {
      UnionOfFile(a, b, merged, r, left, right, p);
    }
  }

  lemma {:induction false} UnionOfFile(a: Abstract, b: Abstract, merged: Abstract, r: Filesystem, left: Variables,
                                       right: Variables,
                    p: string)
    requires AccessOf(merged, p) == Or(AccessOf(Rest(a), p), AccessOf(Rest(b), p)) && VariableFree(merged)
    requires FilesOf(left.files, a) && FilesOf(right.files, b)
    requires VariableFilesAdded(r, FsRules(merged), left, right)
    ensures FsAccess(r, p) == Or(AccessOf(a, p), AccessOf(b, p))
    ensures HasVariable(p) ==> Listed(r, p) == if FsAccess(r, p) == NONE then 0 else 1
  {
    RestGrants(a);
    RestGrants(b);
    PlainUnlisted(FsRules(merged));
    assert Granted(left.files, p) == if HasVariable(p) then AccessOf(a, p) else NONE;
    assert Granted(right.files, p) == if HasVariable(p) then AccessOf(b, p) else NONE;
  }

  lemma {:induction false} PlainUnlisted(fs: Filesystem)
    requires Plain(fs.readOnly) && Plain(fs.writeOnly) && Plain(fs.readWrite)
    ensures forall path | HasVariable(path) :: Listed(fs, path) == 0 && FsAccess(fs, path) == NONE
  {
    forall path | HasVariable(path)
      ensures Listed(fs, path) == 0 && FsAccess(fs, path) == NONE
    {
      assert path !in fs.readOnly && path !in fs.writeOnly && path !in fs.readWrite;
    }
  }
}
