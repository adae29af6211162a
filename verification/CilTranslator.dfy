/**
 Object2CIL: the translation of a SelinuxProfile into a CIL policy.
 */
module CilTranslator {
  import opened Ordering
  import opened Wrappers
  import opened CilReader
  import opened CilPrinter
  import opened CilLaws
  import opened CilRoundTrip

  /** A cloned denylist, minus the allowed names, plus the denied ones. */
  method AdjustDenylist(builtin: set<string>, allowed: seq<string>, denied: seq<string>) returns (r: set<string>)
    ensures r == builtin - Elements(allowed) + Elements(denied)
  {
    r := builtin;
    for i := 0 to |allowed|
      invariant r == builtin - Elements(allowed[..i])
    {
      r := r - {allowed[i]};
      assert allowed[..i + 1] == allowed[..i] + [allowed[i]];
    }
    assert allowed[..|allowed|] == allowed;
    for i := 0 to |denied|
      invariant r == builtin - Elements(allowed) + Elements(denied[..i])
    {
      r := r + {denied[i]};
      assert denied[..i + 1] == denied[..i] + [denied[i]];
    }
    assert denied[..|denied|] == denied;
  }

  /** deniedOptionsFromOpts; a nil pointer behaves like empty options. */
  method DeniedOptions(o: Options) returns (d: Denied)
    ensures d == DeniedBy(o)
  {
    var types := AdjustDenylist(DENIED_TYPES, o.allowedTypes, o.deniedTypes);
    var classes := AdjustDenylist(DENIED_CLASSES, o.allowedClasses, o.deniedClasses);
    var permissions := AdjustDenylist(DENIED_PERMISSIONS, o.allowedPermissions, o.deniedPermissions);
    d := Denied(types, classes, permissions);
  }

  method FirstBadIdentifier(names: seq<string>) returns (k: nat)
    ensures k <= |names| && forall i | 0 <= i < k :: IsIdentifier(names[i])
    ensures k < |names| ==> !IsIdentifier(names[k])
  {
    k := 0;
    while k < |names| && IsIdentifier(names[k])
      invariant k <= |names| && forall i | 0 <= i < k :: IsIdentifier(names[i])
    {
      k := k + 1;
    }
  }

  lemma {:induction false} InheritLinesAppend(done: seq<string>, i: string)
    ensures InheritLines(done + [i]) == InheritLines(done) + InheritLine(i)
  {
    assert (done + [i])[..|done|] == done;
  }

  method AppendInherits(text: string, ghost done: seq<string>, names: seq<string>) returns (r: string)
    requires text == InheritLines(done)
    ensures r == InheritLines(done + names)
  {
    r := text;
    assert done + names[..0] == done;
    for i := 0 to |names|
      invariant r == InheritLines(done + names[..i])
    {
      InheritLinesAppend(done + names[..i], names[i]);
      assert done + names[..i + 1] == done + names[..i] + [names[i]];
      r := r + InheritLine(names[i]);
    }
    assert names[..|names|] == names;
  }

  lemma {:induction false} OthersNext(done: seq<string>, system: seq<string>, i: nat)
    requires i < |system|
    ensures InheritLines(done + OtherThanContainer(system[..i + 1]))
         == InheritLines(done + OtherThanContainer(system[..i]))
            + if system[i] == SYSTEM_CONTAINER then "" else InheritLine(system[i])
  {
    var others := OtherThanContainer(system[..i]);
    assert system[..i + 1][..i] == system[..i];
    if system[i] != SYSTEM_CONTAINER {
      InheritLinesAppend(done + others, system[i]);
      assert done + (others + [system[i]]) == done + others + [system[i]];
    }
  }

  /** The inherited system policies, except for the container template. */
  method AppendSystemInherits(text: string, ghost done: seq<string>, system: seq<string>) returns (r: string)
    requires text == InheritLines(done)
    ensures r == InheritLines(done + OtherThanContainer(system))
  {
    r := text;
    assert done + OtherThanContainer(system[..0]) == done;
    for i := 0 to |system|
      invariant r == InheritLines(done + OtherThanContainer(system[..i]))
    {
      OthersNext(done, system, i);
      if system[i] != SYSTEM_CONTAINER {
        r := r + InheritLine(system[i]);
      }
    }
    assert system[..|system|] == system;
  }

  /** The inherit lines, in the order the source writes them. */
  method WriteInherits(system: seq<string>, profiles: seq<string>) returns (text: string)
    ensures text == InheritLines(Inherits(system, profiles))
  {
    text := "";
    ghost var own: seq<string> := [];
    if |profiles| == 0 {
      InheritLinesAppend([], SYSTEM_CONTAINER);
      assert [] + [SYSTEM_CONTAINER] == [SYSTEM_CONTAINER];
      text, own := text + InheritLine(SYSTEM_CONTAINER), [SYSTEM_CONTAINER];
    }
    text := AppendSystemInherits(text, own, system);
    text := AppendInherits(text, own + OtherThanContainer(system), profiles);
  }

  lemma {:induction false} ClassLinesNext(name: string, ttype: string, classes: seq<string>, i: nat, m: map<string,
                                          seq<string>>)
    requires i < |classes| && forall k | k in classes :: k in m
    ensures ClassLines(name, ttype, classes[..i + 1], m)
         == ClassLines(name, ttype, classes[..i], m) + AllowLine(name, ttype, classes[i], m[classes[i]])
  {
    assert classes[..i + 1][..i] == classes[..i];
  }

  ghost predicate ClassesValid(d: Denied, ttype: string, m: map<string, seq<string>>) {
    forall c | c in m :: ValidRule(d, ttype, c, m[c])
  }

  /** The first class in the list whose rule is refused. */
  method FirstRefused(d: Denied, ttype: string, classes: seq<string>, m: map<string, seq<string>>) returns (k: nat)
    requires forall c | c in classes :: c in m
    ensures k <= |classes| && forall i | 0 <= i < k :: ValidRule(d, ttype, classes[i], m[classes[i]])
    ensures k < |classes| ==> !ValidRule(d, ttype, classes[k], m[classes[k]])
  {
    k := 0;
    while k < |classes|
      invariant k <= |classes| && forall i | 0 <= i < k :: ValidRule(d, ttype, classes[i], m[classes[i]])
    {
      var ok := ValidRule(d, ttype, classes[k], m[classes[k]]);
      if !ok {
        return;
      }
      k := k + 1;
    }
  }

  lemma {:induction false} ListedClassesValid(d: Denied, ttype: string, classes: seq<string>, m: map<string,
                                              seq<string>>)
    requires forall c :: c in classes <==> c in m
    requires forall i | 0 <= i < |classes| :: ValidRule(d, ttype, classes[i], m[classes[i]])
    ensures ClassesValid(d, ttype, m)
  {
    forall c | c in m
      ensures ValidRule(d, ttype, c, m[c])
    {
      assert c in classes;
    }
  }

  /** The lines of one type, or the first class whose rule is refused. */
  method WriteClasses(name: string, ttype: string, m: map<string, seq<string>>, d: Denied)
    returns (ok: bool, text: string, bad: string)
    ensures ok <==> ClassesValid(d, ttype, m)
    ensures ok ==> text == ClassLines(name, ttype, SortedList(m.Keys), m)
    ensures !ok ==> bad in m && !ValidRule(d, ttype, bad, m[bad])
  {
    var classes := SortedKeys(m.Keys);
    var k := FirstRefused(d, ttype, classes, m);
    if k < |classes| {
      assert classes[k] in m;
      return false, "", classes[k];
    }
    ListedClassesValid(d, ttype, classes, m);
    text := WriteClassLines(name, ttype, classes, m);
    return true, text, "";
  }

  method WriteClassLines(name: string, ttype: string, classes: seq<string>, m: map<string, seq<string>>)
    returns (text: string)
    requires forall c | c in classes :: c in m
    ensures text == ClassLines(name, ttype, classes, m)
  {
    text := "";
    for i := 0 to |classes|
      invariant text == ClassLines(name, ttype, classes[..i], m)
    {
      ClassLinesNext(name, ttype, classes, i, m);
      text := text + AllowLine(name, ttype, classes[i], m[classes[i]]);
    }
    assert classes[..|classes|] == classes;
  }

  lemma {:induction false} TypeLinesNext(name: string, types: seq<string>, i: nat, allow: Allow, lines: string)
    requires i < |types| && forall k | k in types :: k in allow
    requires lines == ClassLines(name, types[i], SortedList(allow[types[i]].Keys), allow[types[i]])
    ensures TypeLines(name, types[..i + 1], allow) == TypeLines(name, types[..i], allow) + lines
  {
    assert types[..i + 1][..i] == types[..i];
  }

  lemma {:induction false} AllRulesValid(allow: Allow, types: seq<string>, d: Denied)
    requires forall t :: t in types <==> t in allow
    requires forall j | 0 <= j < |types| :: ClassesValid(d, types[j], allow[types[j]])
    ensures RulesValid(allow, d)
  {
    forall t, c | t in allow && c in allow[t]
      ensures ValidRule(d, t, c, allow[t][c])
    {
      assert t in types;
      var j :| 0 <= j < |types| && types[j] == t;
    }
  }

  /** The rules of the first i types are valid, and the text holds their lines. */
  ghost predicate Written(name: string, types: seq<string>, allow: Allow, d: Denied, i: nat, text: string)
    requires i <= |types| && forall t | t in types :: t in allow
  {
    && (forall j | 0 <= j < i :: ClassesValid(d, types[j], allow[types[j]]))
    && text == TypeLines(name, types[..i], allow)
  }

  lemma {:induction false} WrittenNext(name: string, types: seq<string>, allow: Allow, d: Denied, i: nat,
                                       text: string, lines: string)
    requires i < |types| && (forall t | t in types :: t in allow) && Written(name, types, allow, d, i, text)
    requires ClassesValid(d, types[i], allow[types[i]])
    requires lines == ClassLines(name, types[i], SortedList(allow[types[i]].Keys), allow[types[i]])
    ensures Written(name, types, allow, d, i + 1, text + lines)
  {
    TypeLinesNext(name, types, i, allow, lines);
  }

  /** The lines of the types up to the first one with a refused rule, whose class is `bad`. */
  method WriteTypeLines(name: string, types: seq<string>, allow: Allow, d: Denied)
    returns (k: nat, text: string, bad: string)
    requires forall t | t in types :: t in allow
    ensures k <= |types| && Written(name, types, allow, d, k, text)
    ensures k < |types| ==> bad in allow[types[k]] && !ValidRule(d, types[k], bad, allow[types[k]][bad])
  {
    k, text, bad := 0, "", "";
    while k < |types|
      invariant k <= |types| && Written(name, types, allow, d, k, text)
    {
      var ok, lines, refused := WriteClasses(name, types[k], allow[types[k]], d);
      if !ok {
        bad := refused;
        return;
      }
      WrittenNext(name, types, allow, d, k, text, lines);
      text, k := text + lines, k + 1;
    }
  }

  /** The lines of all types, or the first type and class whose rule is refused. */
  method WriteTypes(name: string, allow: Allow, d: Denied)
    returns (ok: bool, text: string, badType: string, badClass: string)
    ensures ok ==> RulesValid(allow, d)
    ensures ok ==> text == TypeLines(name, SortedList(allow.Keys), allow)
    ensures !ok ==> badType in allow && badClass in allow[badType]
                    && !ValidRule(d, badType, badClass, allow[badType][badClass])
  {
    var types := SortedKeys(allow.Keys);
    var k;
    k, text, badClass := WriteTypeLines(name, types, allow, d);
    if k < |types| {
      assert types[k] in allow;
      return false, text, types[k], badClass;
    }
    assert types[..k] == types;
    AllRulesValid(allow, types, d);
    return true, text, "", badClass;
  }

  lemma {:induction false} RefusedRule(allow: Allow, d: Denied, t: string, c: string)
    requires t in allow && c in allow[t] && !ValidRule(d, t, c, allow[t][c])
    ensures !RulesValid(allow, d)
  {
  }

  lemma {:induction false} AllIdentifiers(system: seq<string>, profiles: seq<string>)
    requires forall i | 0 <= i < |system + profiles| :: IsIdentifier((system + profiles)[i])
    ensures (forall i | i in system :: IsIdentifier(i)) && (forall i | i in profiles :: IsIdentifier(i))
  {
    forall i | i in profiles
      ensures IsIdentifier(i)
    {
      var k :| 0 <= k < |profiles| && profiles[k] == i;
      assert (system + profiles)[|system| + k] == i;
    }
    forall i | i in system
      ensures IsIdentifier(i)
    {
      var k :| 0 <= k < |system| && system[k] == i;
      assert (system + profiles)[k] == i;
    }
  }

  /**
   Object2CIL. It succeeds exactly for a translatable profile; then the text is
   independent of map iteration and reads back to the profile's policy. A
   refused rule is one of the spec's.
   */
  method Object2Cil(system: seq<string>, profiles: seq<string>, p: Profile, o: Options) returns (r: Result)
    ensures r.Ok? <==> Translatable(system, profiles, p, o)
    ensures r.Ok? <==> IsTranslated(system, profiles, p, o)
    ensures r.Ok? ==> r.text == CilText(system, profiles, p)
    ensures r.Ok? ==> ReadPolicy(r.text) == Some(Meaning(system, profiles, p))
    ensures r.Ok? ==> ReadsAs(r.text, system, profiles, p)
    ensures r == Err(BadProfileName) <==> !IsBlockName(p.name)
    ensures r.Err? && r.error.BadInherit? <==>
              IsBlockName(p.name) && exists i :: i in system + profiles && !IsIdentifier(i)
    ensures r.Err? && r.error.BadInherit? ==> r.error.name in system + profiles && !IsIdentifier(r.error.name)
    ensures r.Err? && r.error.BadRule? ==>
              && r.error.ttype in p.allow && r.error.class_ in p.allow[r.error.ttype]
              && !ValidRule(DeniedBy(o), r.error.ttype, r.error.class_, p.allow[r.error.ttype][r.error.class_])
  {
    TranslatableSpelled(system, profiles, p, o);
    if !IsBlockName(p.name) {
      return Err(BadProfileName);
    }
    var inherits := system + profiles;
    var k := FirstBadIdentifier(inherits);
    if k < |inherits| {
      assert inherits[k] in system || inherits[k] in profiles;
      return Err(BadInherit(inherits[k]));
    }
    AllIdentifiers(system, profiles);
    var lines := WriteInherits(system, profiles);
    var d := DeniedOptions(o);
    var ok, types, badType, badClass := WriteTypes(p.name, p.allow, d);
    if !ok {
      RefusedRule(p.allow, d, badType, badClass);
      return Err(BadRule(badType, badClass));
    }
    TextMeansProfile(system, profiles, p, o);
    MeaningSpelled(CilText(system, profiles, p), system, profiles, p);
    return Ok(StartText(p.name) + (lines + PermissiveText(p.permissive) + types) + ")\n");
  }
}
