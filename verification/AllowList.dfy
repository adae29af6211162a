/**
 The check of seccomp profiles against the allow lists of the SPOD, and the test
 whether a configuration change can affect it.
 */
module AllowList {
  import opened Ordering
  import opened Wrappers

  type Action = string

  const CHECKABLE: seq<Action> := ["SCMP_ACT_ALLOW", "SCMP_ACT_LOG", "SCMP_ACT_TRACE", "SCMP_ACT_NOTIFY"]

  datatype Call = Call(action: Action, names: seq<string>)

  datatype Profile = Profile(defaultAction: Action, syscalls: seq<Call>)

  datatype Security = Security(allowedSyscalls: seq<string>, allowedActions: seq<Action>)

  datatype Verdict = Allowed | ForbiddenAction | ForbiddenSyscall(name: string) | ForbiddenProfile

  // ---------------------------------------------------------------- checking a profile

  /** The actions whose syscalls get checked; none of them may be uncheckable. */
  method CheckedActions(allowed: seq<Action>) returns (r: Option<seq<Action>>)
    ensures r.None? <==> exists a :: a in allowed && a !in CHECKABLE
    ensures r.Some? ==> r.value == if allowed == [] then CHECKABLE else allowed
  {
    if |allowed| == 0 {
      return Some(CHECKABLE);
    }
    for i := 0 to |allowed|
      invariant forall j | 0 <= j < i :: allowed[j] in CHECKABLE
    {
      if allowed[i] !in CHECKABLE {
        return None;
      }
    }
    return Some(allowed);
  }

  predicate UsedIn(call: Call, action: Action, name: string) {
    call.action == action && name in call.names
  }

  /** One of the first i entries of the profile uses the syscall with the action. */
  predicate UsedBefore(p: Profile, i: nat, action: Action, name: string)
    requires i <= |p.syscalls|
  {
    exists j | 0 <= j < i :: UsedIn(p.syscalls[j], action, name)
  }

  predicate Uses(p: Profile, action: Action, name: string) {
    UsedBefore(p, |p.syscalls|, action, name)
  }

  predicate Checked(cfg: Security, action: Action) {
    action in if cfg.allowedActions == [] then CHECKABLE else cfg.allowedActions
  }

  /** The profile respects one checked action: only allowed syscalls, and it is not the default. */
  ghost predicate Respects(p: Profile, cfg: Security, action: Action) {
    && (forall name | Uses(p, action, name) :: name in cfg.allowedSyscalls)
    && !(p.defaultAction == action && cfg.allowedSyscalls != [])
  }

  ghost predicate ProfileAllowed(p: Profile, cfg: Security) {
    && (forall a | a in cfg.allowedActions :: a in CHECKABLE)
    && (forall action | Checked(cfg, action) :: Respects(p, cfg, action))
  }

  predicate Holds(calls: map<Action, set<string>>, action: Action, name: string) {
    action in calls && name in calls[action]
  }

  /** calls holds the names of the first i entries, by action. */
  ghost predicate Collected(calls: map<Action, set<string>>, p: Profile, i: nat)
    requires i <= |p.syscalls|
  {
    forall action, name :: Holds(calls, action, name) <==> UsedBefore(p, i, action, name)
  }

  function AddCall(calls: map<Action, set<string>>, call: Call): map<Action, set<string>> {
    calls[call.action := (if call.action in calls then calls[call.action] else {}) + Elements(call.names)]
  }

  lemma {:induction false} CollectedNext(calls: map<Action, set<string>>, p: Profile, i: nat)
    requires i < |p.syscalls| && Collected(calls, p, i)
    ensures Collected(AddCall(calls, p.syscalls[i]), p, i + 1)
  {
    var call, calls' := p.syscalls[i], AddCall(calls, p.syscalls[i]);
    forall action, name
      ensures Holds(calls', action, name) <==> UsedBefore(p, i + 1, action, name)
    {
      assert Holds(calls', action, name) <==> Holds(calls, action, name) || UsedIn(call, action, name);
      assert UsedBefore(p, i + 1, action, name) <==> UsedBefore(p, i, action, name) || UsedIn(call, action, name);
    }
  }

  /** The names a profile uses, by action. */
  method CollectSyscalls(p: Profile) returns (calls: map<Action, set<string>>)
    ensures Collected(calls, p, |p.syscalls|)
  {
    calls := map[];
    for i := 0 to |p.syscalls|
      invariant Collected(calls, p, i)
    {
      CollectedNext(calls, p, i);
      calls := AddCall(calls, p.syscalls[i]);
    }
  }

  /** The actions that let a syscall through. */
  predicate IsCheckable(a: Action) {
    a in {"SCMP_ACT_ALLOW", "SCMP_ACT_LOG", "SCMP_ACT_TRACE", "SCMP_ACT_NOTIFY"}
  }

  /** The actions whose syscalls have to be on the list: the configured ones, or all of those. */
  predicate IsChecked(cfg: Security, a: Action) {
    if cfg.allowedActions == [] then IsCheckable(a) else a in cfg.allowedActions
  }

  lemma {:induction false} CheckedSpelled(cfg: Security, a: Action)
    ensures a in CHECKABLE <==> IsCheckable(a)
    ensures Checked(cfg, a) <==> IsChecked(cfg, a)
  {
    assert CHECKABLE[0] == "SCMP_ACT_ALLOW" && CHECKABLE[1] == "SCMP_ACT_LOG"
        && CHECKABLE[2] == "SCMP_ACT_TRACE" && CHECKABLE[3] == "SCMP_ACT_NOTIFY";
  }

  lemma {:induction false} AllowedSpelled(p: Profile, cfg: Security)
    ensures ProfileAllowed(p, cfg) <==>
              && (forall a | a in cfg.allowedActions :: IsCheckable(a))
              && (forall i | 0 <= i < |p.syscalls| && IsChecked(cfg, p.syscalls[i].action) ::
                    forall name | name in p.syscalls[i].names :: name in cfg.allowedSyscalls)
              && (IsChecked(cfg, p.defaultAction) ==> cfg.allowedSyscalls == [])
  {
    forall a
      ensures a in CHECKABLE <==> IsCheckable(a)
      ensures Checked(cfg, a) <==> IsChecked(cfg, a)
    {
      CheckedSpelled(cfg, a);
    }
    if ProfileAllowed(p, cfg) {
      forall i, name | 0 <= i < |p.syscalls| && Checked(cfg, p.syscalls[i].action) && name in p.syscalls[i].names
        ensures name in cfg.allowedSyscalls
      {
        assert Respects(p, cfg, p.syscalls[i].action) && UsedIn(p.syscalls[i], p.syscalls[i].action, name);
        assert Uses(p, p.syscalls[i].action, name);
      }
      assert Checked(cfg, p.defaultAction) ==> Respects(p, cfg, p.defaultAction);
    }
  }

  /** AllowProfile. */
  method AllowProfile(p: Profile, cfg: Security) returns (v: Verdict)
    ensures v == Allowed <==> ProfileAllowed(p, cfg)
    ensures v == Allowed <==>
              && (forall a | a in cfg.allowedActions :: IsCheckable(a))
              && (forall i | 0 <= i < |p.syscalls| && IsChecked(cfg, p.syscalls[i].action) ::
                    forall name | name in p.syscalls[i].names :: name in cfg.allowedSyscalls)
              && (IsChecked(cfg, p.defaultAction) ==> cfg.allowedSyscalls == [])
    ensures v == ForbiddenAction <==> exists a :: a in cfg.allowedActions && a !in CHECKABLE
    ensures v.ForbiddenSyscall? ==>
              v.name !in cfg.allowedSyscalls && exists a :: Checked(cfg, a) && Uses(p, a, v.name)
    ensures v == ForbiddenProfile ==> Checked(cfg, p.defaultAction) && cfg.allowedSyscalls != []
  {
    AllowedSpelled(p, cfg);
    var calls := CollectSyscalls(p);
    var actions := CheckedActions(cfg.allowedActions);
    if actions.None? {
      return ForbiddenAction;
    }
    var allowed := Elements(cfg.allowedSyscalls);
    for i := 0 to |actions.value|
      invariant forall j | 0 <= j < i :: Respects(p, cfg, actions.value[j])
    {
      var action := actions.value[i];
      assert Checked(cfg, action);
      if action in calls && !(calls[action] <= allowed) {
        var bad :| bad in calls[action] && bad !in allowed;
        assert Holds(calls, action, bad) && Uses(p, action, bad);
        return ForbiddenSyscall(bad);
      }
      if p.defaultAction == action && |cfg.allowedSyscalls| > 0 {
        return ForbiddenProfile;
      }
      forall name | Uses(p, action, name)
        ensures name in cfg.allowedSyscalls
      {
        assert Holds(calls, action, name);
      }
    }
    return Allowed;
  }

  // ---------------------------------------------------------------- comparing configurations

  /** The counters a map holds; a missing entry counts zero. */
  function CountIn(diff: map<string, nat>, s: string): nat {
    if s in diff then diff[s] else 0
  }

  /** The map counts the multiset, with positive entries only. */
  ghost predicate Counts(diff: map<string, nat>, m: multiset<string>) {
    forall s :: CountIn(diff, s) == m[s] && (s in diff ==> diff[s] > 0)
  }

  /** A multiset drained by one of the same size is empty: the last length test never fires. */
  lemma {:induction false} DrainedIsEmpty(diff: map<string, nat>, newer: seq<string>, older: seq<string>)
    requires |newer| == |older| && Drained(diff, newer, older)
    ensures diff == map[] && multiset(newer) == multiset(older)
  {
    var left := multiset(newer) - multiset(older);
    assert multiset(newer) == left + multiset(older);
    assert |multiset(newer)| == |left| + |multiset(older)|;
    assert left == multiset{};
  }

  lemma {:induction false} CountOneMore(diff: map<string, nat>, m: multiset<string>, s: string)
    requires Counts(diff, m)
    ensures Counts(diff[s := CountIn(diff, s) + 1], m + multiset{s})
  {
  }

  /** One occurrence is taken off, and the entry with it once it reaches zero. */
  function TakeOne(diff: map<string, nat>, s: string): map<string, nat>
    requires s in diff && diff[s] > 0
  {
    if diff[s] == 1 then diff - {s} else diff[s := diff[s] - 1]
  }

  lemma {:induction false} CountOneLess(diff: map<string, nat>, m: multiset<string>, s: string)
    requires Counts(diff, m) && s in diff
    ensures diff[s] > 0 && s in m && Counts(TakeOne(diff, s), m - multiset{s})
  {
  }

  method CountAll(list: seq<string>) returns (diff: map<string, nat>)
    ensures Counts(diff, multiset(list))
  {
    diff := map[];
    for i := 0 to |list|
      invariant Counts(diff, multiset(list[..i]))
    {
      assert list[..i + 1] == list[..i] + [list[i]];
      CountOneMore(diff, multiset(list[..i]), list[i]);
      diff := diff[list[i] := CountIn(diff, list[i]) + 1];
    }
    assert list[..|list|] == list;
  }

  /** The counters hold what the first list has more often than the second. */
  ghost predicate Drained(diff: map<string, nat>, news: seq<string>, olds: seq<string>) {
    multiset(olds) <= multiset(news) && Counts(diff, multiset(news) - multiset(olds))
  }

  lemma {:induction false} DrainNext(diff: map<string, nat>, news: seq<string>, olds: seq<string>, i: nat)
    requires i < |olds| && Drained(diff, news, olds[..i]) && olds[i] in diff
    ensures diff[olds[i]] > 0 && Drained(TakeOne(diff, olds[i]), news, olds[..i + 1])
  {
    var s, left := olds[i], multiset(news) - multiset(olds[..i]);
    CountOneLess(diff, left, s);
    assert olds[..i + 1] == olds[..i] + [s];
    assert left - multiset{s} == multiset(news) - multiset(olds[..i + 1]);
  }

  lemma {:induction false} DrainMissing(diff: map<string, nat>, news: seq<string>, olds: seq<string>, i: nat)
    requires i < |olds| && Drained(diff, news, olds[..i]) && olds[i] !in diff
    ensures multiset(olds) != multiset(news)
  {
    assert CountIn(diff, olds[i]) == 0;
    assert olds == olds[..i] + [olds[i]] + olds[i + 1..];
    assert multiset(olds)[olds[i]] > multiset(news)[olds[i]];
  }

  /** Takes every entry of the list off the counters, until one is missing. */
  method Drain(counted: map<string, nat>, news: seq<string>, olds: seq<string>)
    returns (missing: bool, diff: map<string, nat>)
    requires Counts(counted, multiset(news))
    ensures !missing ==> Drained(diff, news, olds)
    ensures missing ==> multiset(olds) != multiset(news)
  {
    diff := counted;
    for i := 0 to |olds|
      invariant Drained(diff, news, olds[..i])
    {
      if olds[i] !in diff {
        DrainMissing(diff, news, olds, i);
        return true, diff;
      }
      DrainNext(diff, news, olds, i);
      diff := TakeOne(diff, olds[i]);
    }
    assert olds[..|olds|] == olds;
    return false, diff;
  }

  /**
   AllowListChanged: false exactly if the action sets are equal and the syscall
   lists are permutations of each other.
   */
  method AllowListChanged(older: Security, newer: Security) returns (changed: bool)
    ensures changed <==> !(Elements(newer.allowedActions) == Elements(older.allowedActions)
                           && multiset(newer.allowedSyscalls) == multiset(older.allowedSyscalls))
  {
    if Elements(newer.allowedActions) != Elements(older.allowedActions) {
      return true;
    }
    var news, olds := newer.allowedSyscalls, older.allowedSyscalls;
    if |news| != |olds| {
      assert |multiset(news)| != |multiset(olds)|;
      return true;
    }
    var diff := CountAll(news);
    var missing;
    missing, diff := Drain(diff, news, olds);
    if missing {
      return true;
    }
    DrainedIsEmpty(diff, news, olds);
    return |diff| != 0;
  }

  /** An unchanged configuration gives every profile the same verdict. */
  lemma {:induction false} UnchangedKeepsVerdict(p: Profile, a: Security, b: Security)
    requires Elements(a.allowedActions) == Elements(b.allowedActions)
    requires multiset(a.allowedSyscalls) == multiset(b.allowedSyscalls)
    ensures ProfileAllowed(p, a) <==> ProfileAllowed(p, b)
  {
    if ProfileAllowed(p, a) {
      VerdictCarries(p, a, b);
    }
    if ProfileAllowed(p, b) {
      VerdictCarries(p, b, a);
    }
  }

  lemma {:induction false} VerdictCarries(p: Profile, a: Security, b: Security)
    requires Elements(a.allowedActions) == Elements(b.allowedActions)
    requires multiset(a.allowedSyscalls) == multiset(b.allowedSyscalls)
    requires ProfileAllowed(p, a)
    ensures ProfileAllowed(p, b)
  {
    SameMembers(a, b);
    forall action | Checked(b, action)
      ensures Respects(p, b, action)
    {
      assert Checked(a, action) && Respects(p, a, action);
    }
  }

  lemma {:induction false} SameMembers(a: Security, b: Security)
    requires Elements(a.allowedActions) == Elements(b.allowedActions)
    requires multiset(a.allowedSyscalls) == multiset(b.allowedSyscalls)
    ensures forall x :: x in a.allowedActions <==> x in b.allowedActions
    ensures a.allowedActions == [] <==> b.allowedActions == []
    ensures forall x :: x in a.allowedSyscalls <==> x in b.allowedSyscalls
    ensures a.allowedSyscalls == [] <==> b.allowedSyscalls == []
  {
    forall x
      ensures x in a.allowedActions <==> x in b.allowedActions
    {
      assert x in Elements(a.allowedActions) <==> x in Elements(b.allowedActions);
    }
    forall x
      ensures x in a.allowedSyscalls <==> x in b.allowedSyscalls
    {
      assert x in multiset(a.allowedSyscalls) <==> x in multiset(b.allowedSyscalls);
    }
    assert |multiset(a.allowedSyscalls)| == |multiset(b.allowedSyscalls)|;
    if a.allowedActions != [] {
      assert a.allowedActions[0] in a.allowedActions;
    }
    if b.allowedActions != [] {
      assert b.allowedActions[0] in b.allowedActions;
    }
  }
}
