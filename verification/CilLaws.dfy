/**
 What a translated SelinuxProfile means, spelled out: which profiles are
 translated, which inherits and rules their text reads back to, and how its
 lines are written.
 */
module CilLaws {
  import opened Alphabets
  import opened CilPrinter
  import opened CilReader
  import opened CilRoundTrip
  import opened Ordering
  import opened Wrappers

  // ---------------------------------------------------------------- names

  /** A name made of letters, digits, dashes, dots and underscores. */
  ghost predicate IsWord(s: string) {
    s != "" && forall c | c in s :: c in LOWER || c in UPPER || c in DIGITS || c in "-._"
  }

  lemma {:induction false} CharSpelled(c: char)
    ensures IsIdentifierChar(c) <==> c in LOWER || c in UPPER || c in DIGITS || c in "-._"
    ensures IsLetter(c) <==> c in LOWER || c in UPPER
  {
    LowerIff(c);
    UpperIff(c);
    DigitIff(c);
  }

  lemma {:induction false} WordSpelled(s: string)
    ensures IsIdentifier(s) <==> IsWord(s)
  {
    forall i | 0 <= i < |s|
      ensures IsIdentifierChar(s[i]) <==> s[i] in LOWER || s[i] in UPPER || s[i] in DIGITS || s[i] in "-._"
    {
      CharSpelled(s[i]);
    }
  }

  /** A block name starts with a letter and has no dots. */
  lemma {:induction false} BlockNameSpelled(s: string)
    ensures IsBlockName(s) <==> IsWord(s) && (s[0] in LOWER || s[0] in UPPER) && '.' !in s
  {
    WordSpelled(s);
    if s != "" {
      CharSpelled(s[0]);
    }
  }

  // ---------------------------------------------------------------- inherits

  /** The list without an item, everything else in its place. */
  ghost function Dropping(s: seq<string>, x: string): (r: seq<string>)
    ensures x !in r && forall y | y != x :: multiset(r)[y] == multiset(s)[y]
  {
    if s == [] then []
    else
      assert s == [s[0]] + s[1..];
      if s[0] == x then Dropping(s[1..], x) else [s[0]] + Dropping(s[1..], x)
  }

  lemma {:induction false} DroppingAppend(s: seq<string>, y: string, x: string)
    ensures Dropping(s + [y], x) == Dropping(s, x) + if y == x then [] else [y]
    decreases |s|
  {
    if s == [] {
      assert [] + [y] == [y] && [y][1..] == [];
    } else {
      assert (s + [y])[0] == s[0] && (s + [y])[1..] == s[1..] + [y];
      DroppingAppend(s[1..], y, x);
    }
  }

  lemma {:induction false} DroppingNothing(s: seq<string>, x: string)
    requires x !in s
    ensures Dropping(s, x) == s
    decreases |s|
  {
    if s != [] {
      DroppingNothing(s[1..], x);
    }
  }

  lemma {:induction false} OthersDropped(system: seq<string>)
    ensures OtherThanContainer(system) == Dropping(system, "container")
    decreases |system|
  {
    if system != [] {
      var k := |system| - 1;
      OthersDropped(system[..k]);
      DroppingAppend(system[..k], system[k], "container");
      assert system == system[..k] + [system[k]];
    }
  }

  /** The inherits of a policy: the system's, then the profiles', with the container template first or left to them. */
  ghost predicate InheritsAsGiven(inherits: seq<string>, system: seq<string>, profiles: seq<string>) {
    && |profiles| <= |inherits|
    && inherits[|inherits| - |profiles|..] == profiles
    && var front := inherits[..|inherits| - |profiles|];
       && Dropping(front, "container") == Dropping(system, "container")
       && if profiles == [] then front != [] && front[0] == "container" && "container" !in front[1..]
          else "container" !in front
  }

  lemma {:induction false} InheritsSpelled(system: seq<string>, profiles: seq<string>)
    ensures InheritsAsGiven(Inherits(system, profiles), system, profiles)
  {
    var others, i := OtherThanContainer(system), Inherits(system, profiles);
    var front := i[..|i| - |profiles|];
    OthersDropped(system);
    DroppingNothing(others, "container");
    if profiles == [] {
      assert front == ["container"] + others && front[1..] == others;
    } else {
      assert front == others;
    }
  }

  // ---------------------------------------------------------------- rules

  /** The rule a type, class and permission of the spec stand for. */
  ghost predicate IsRuleOf(p: Profile, rule: Rule) {
    exists t, c, x | t in p.allow && c in p.allow[t] && x in p.allow[t][c] ::
      rule.ttype == (if t == "@self" then p.name + ".process" else t) && rule.class_ == c && rule.permission == x
  }

  lemma {:induction false} RulesSpelled(p: Profile, rule: Rule)
    ensures rule in SpecRules(p) <==> IsRuleOf(p, rule)
  {
    if rule in SpecRules(p) {
      var t, c, x :| t in p.allow && c in p.allow[t] && x in p.allow[t][c]
                     && rule == Rule(FinalType(p.name, t), c, x);
      assert rule.ttype == if t == "@self" then p.name + ".process" else t;
    }
    if IsRuleOf(p, rule) {
      var t, c, x :| t in p.allow && c in p.allow[t] && x in p.allow[t][c]
                     && rule.ttype == (if t == "@self" then p.name + ".process" else t)
                     && rule.class_ == c && rule.permission == x;
      assert rule == Rule(FinalType(p.name, t), c, x);
    }
  }

  /** What a text has to read back to. */
  ghost predicate ReadsAs(text: string, system: seq<string>, profiles: seq<string>, p: Profile) {
    var q := ReadPolicy(text);
    && q.Some? && q.value.name == p.name && q.value.permissive == p.permissive
    && InheritsAsGiven(q.value.inherits, system, profiles)
    && forall rule :: rule in q.value.rules <==> IsRuleOf(p, rule)
  }

  lemma {:induction false} MeaningSpelled(text: string, system: seq<string>, profiles: seq<string>, p: Profile)
    requires ReadPolicy(text) == Some(Meaning(system, profiles, p))
    ensures ReadsAs(text, system, profiles, p)
  {
    InheritsSpelled(system, profiles);
    forall rule
      ensures rule in SpecRules(p) <==> IsRuleOf(p, rule)
    {
      RulesSpelled(p, rule);
    }
  }

  // ---------------------------------------------------------------- what is translated

  /** A name that is not denied: not by the user, and by the built-in list only if it is allowed. */
  ghost predicate Permitted(name: string, builtin: set<string>, allowed: seq<string>, denied: seq<string>) {
    name !in denied && (name in builtin ==> name in allowed)
  }

  ghost predicate RulePermitted(o: Options, t: string, c: string, permissions: seq<string>) {
    && (t == "@self" || IsWord(t)) && IsWord(c) && (forall x | x in permissions :: IsWord(x))
    && Permitted(t, {"kernel_t", "kmem_t", "security_t", "shadow_t"}, o.allowedTypes, o.deniedTypes)
    && Permitted(c, {"capability", "capability2", "security", "system"}, o.allowedClasses, o.deniedClasses)
    && (forall x | x in permissions ::
          Permitted(x, {"load_policy", "mac_admin", "mounton", "relabelto", "relabelfrom", "setbool", "setenforce",
                        "setsecparam"}, o.allowedPermissions, o.deniedPermissions))
  }

  lemma {:induction false} PermittedIff(name: string, builtin: set<string>, allowed: seq<string>, denied: seq<string>)
    ensures Permitted(name, builtin, allowed, denied) <==> name !in builtin - Elements(allowed) + Elements(denied)
  {
  }

  lemma {:induction false} RuleSpelled(o: Options, t: string, c: string, permissions: seq<string>)
    ensures ValidRule(DeniedBy(o), t, c, permissions) <==> RulePermitted(o, t, c, permissions)
  {
    WordSpelled(t);
    WordSpelled(c);
    PermittedIff(t, DENIED_TYPES, o.allowedTypes, o.deniedTypes);
    PermittedIff(c, DENIED_CLASSES, o.allowedClasses, o.deniedClasses);
    forall i | 0 <= i < |permissions|
      ensures IsIdentifier(permissions[i]) <==> IsWord(permissions[i])
      ensures permissions[i] !in DeniedBy(o).permissions <==>
              Permitted(permissions[i], DENIED_PERMISSIONS, o.allowedPermissions, o.deniedPermissions)
    {
      WordSpelled(permissions[i]);
      PermittedIff(permissions[i], DENIED_PERMISSIONS, o.allowedPermissions, o.deniedPermissions);
    }
  }

  /** The profiles and options that are translated. */
  ghost predicate IsTranslated(system: seq<string>, profiles: seq<string>, p: Profile, o: Options) {
    && IsWord(p.name) && (p.name[0] in LOWER || p.name[0] in UPPER) && '.' !in p.name
    && (forall i | i in system :: IsWord(i)) && (forall i | i in profiles :: IsWord(i))
    && forall t, c | t in p.allow && c in p.allow[t] :: RulePermitted(o, t, c, p.allow[t][c])
  }

  lemma {:induction false} TranslatableSpelled(system: seq<string>, profiles: seq<string>, p: Profile, o: Options)
    ensures Translatable(system, profiles, p, o) <==> IsTranslated(system, profiles, p, o)
  {
    BlockNameSpelled(p.name);
    forall i
      ensures IsIdentifier(i) <==> IsWord(i)
    {
      WordSpelled(i);
    }
    forall t, c | t in p.allow && c in p.allow[t]
      ensures ValidRule(DeniedBy(o), t, c, p.allow[t][c]) <==> RulePermitted(o, t, c, p.allow[t][c])
    {
      RuleSpelled(o, t, c, p.allow[t][c]);
    }
  }

  // ---------------------------------------------------------------- how it is written

  lemma {:induction false} LinesSpelled(name: string, i: string)
    ensures StartText(name) == "(block " + name + "\n"
    ensures InheritLine(i) == "(blockinherit " + i + ")\n"
    ensures PermissiveText(true) == "(typepermissive process)\n" && PermissiveText(false) == ""
  {
    assert StartText(name) == "(" + "block" + " " + (name + "\n");
    assert "(" + "block" + " " == "(block ";
    assert "(" + "blockinherit" + " " == "(blockinherit ";
    assert "(" + "typepermissive" + " " + ("process" + ")\n") == "(typepermissive process)\n";
  }

  lemma {:induction false} RuleLineSpelled(name: string, t: string, c: string, permissions: seq<string>)
    ensures AllowLine(name, t, c, permissions)
         == "(allow process " + (if t == "@self" then name + ".process" else t) + " ( " + c + " ( "
            + Join(SortCompact(StringLe, permissions)) + " )))\n"
  {
    assert ALLOW_HEAD == "(allow process " by {
      assert "(" + "allow" + " " + ("process" + " ") == "(allow process ";
    }
    var head, final := ALLOW_HEAD, FinalType(name, t);
    assert head + (final + " ( ") + (c + " ( ") == head + final + " ( " + c + " ( ";
  }

  /** Words are joined by single blanks. */
  lemma {:induction false} JoinSpelled(words: seq<string>, w: string)
    ensures Join([]) == "" && Join([w]) == w
    ensures words != [] ==> Join([w] + words) == w + " " + Join(words)
  {
    assert words != [] ==> ([w] + words)[1..] == words;
  }
}
