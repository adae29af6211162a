/**
 The text of a profile is read back, statement by statement, to the profile it
 came from.
 */
module CilRoundTrip {
  import opened Ordering
  import opened Wrappers
  import opened CilReader
  import opened CilPrinter

  // ---------------------------------------------------------------- reading the text back

  /** The reader stands between two words. */
  predicate Between(r: Reader) {
    r.Reader? && r.word == ""
  }

  function With(r: Reader, items: seq<Sexp>): Reader
    requires r.Reader?
  {
    Reader(r.items + items, r.around, r.word)
  }

  lemma {:induction false} Feed2(r: Reader, a: char, b: char)
    ensures Feed(r, [a, b]) == FeedChar(FeedChar(r, a), b)
  {
    assert [a, b] == [a] + [b];
    FeedConcat(r, [a], [b]);
    FeedOne(r, a);
    FeedOne(FeedChar(r, a), b);
  }

  lemma {:induction false} Feed3(r: Reader, a: char, b: char, c: char)
    ensures Feed(r, [a, b, c]) == FeedChar(FeedChar(FeedChar(r, a), b), c)
  {
    assert [a, b, c] == [a, b] + [c];
    FeedConcat(r, [a, b], [c]);
    Feed2(r, a, b);
    FeedOne(FeedChar(FeedChar(r, a), b), c);
  }

  /** An opening parenthesis, a keyword and a space. */
  lemma {:induction false} FeedKeyword(r: Reader, keyword: string)
    requires Between(r) && IsIdentifier(keyword)
    ensures Feed(r, "(" + keyword + " ") == Reader([Atom(keyword)], Inside(r.items, r.around), "")
  {
    var r1 := Reader([], Inside(r.items, r.around), "");
    assert "(" + keyword + " " == "(" + (keyword + " ");
    FeedConcat(r, "(", keyword + " ");
    FeedOne(r, '(');
    FeedWord(r1, keyword, ' ');
  }

  /** A statement of a keyword and one identifier. */
  lemma {:induction false} FeedStatement(r: Reader, keyword: string, w: string)
    requires Between(r) && IsIdentifier(keyword) && IsIdentifier(w)
    ensures Feed(r, StatementText(keyword, w)) == With(r, [Node([Atom(keyword), Atom(w)])])
  {
    FeedConcat(r, "(" + keyword + " ", w + ")\n");
    FeedKeyword(r, keyword);
    var r1 := Reader([Atom(keyword)], Inside(r.items, r.around), "");
    FeedConcat(r1, w, ")\n");
    FeedIdentifier(r1, w);
    assert r1.word + w == w;
    Feed2(r1.(word := w), ')', '\n');
    assert [Atom(keyword)] + [Atom(w)] == [Atom(keyword), Atom(w)];
  }

  lemma {:induction false} UsageIsIdentifier(name: string)
    requires IsBlockName(name)
    ensures IsIdentifier(Usage(name)) && IsIdentifier(name)
  {
  }

  /** A list of words leaves the last one to be flushed by what follows. */
  lemma {:induction false} FeedJoin(r: Reader, words: seq<string>)
    requires Between(r) && forall w | w in words :: IsIdentifier(w)
    ensures var r' := Feed(r, Join(words));
            r'.Reader? && r'.around == r.around && Flushed(r') == r.items + Atoms(words)
    decreases |words|
  {
    if |words| == 0 {
      assert Atoms(words) == [];
    } else if |words| == 1 {
      assert words[0] in words;
      FeedIdentifier(r, words[0]);
      assert r.word + words[0] == words[0];
      assert Atoms(words) == [Atom(words[0])];
    } else {
      FeedConcat(r, words[0] + " ", Join(words[1..]));
      FeedWord(r, words[0], ' ');
      FeedJoin(With(r, [Atom(words[0])]), words[1..]);
      assert r.items + [Atom(words[0])] + Atoms(words[1..]) == r.items + Atoms(words);
    }
  }

  /** An opening parenthesis and two words. */
  lemma {:induction false} FeedTwoWords(r: Reader, keyword: string, w: string)
    requires Between(r) && IsIdentifier(keyword) && IsIdentifier(w)
    ensures Feed(r, "(" + keyword + " " + (w + " ")) == Reader([Atom(keyword), Atom(w)], Inside(r.items, r.around), "")
  {
    FeedConcat(r, "(" + keyword + " ", w + " ");
    FeedKeyword(r, keyword);
    FeedWord(Reader([Atom(keyword)], Inside(r.items, r.around), ""), w, ' ');
    assert [Atom(keyword)] + [Atom(w)] == [Atom(keyword), Atom(w)];
  }

  lemma {:induction false} FeedAllowHead(r: Reader)
    requires Between(r)
    ensures Feed(r, ALLOW_HEAD) == Reader([Atom(ALLOW), Atom(PROCESS)], Inside(r.items, r.around), "")
  {
    KeywordsAreIdentifiers();
    FeedTwoWords(r, ALLOW, PROCESS);
  }

  /** An identifier and the list that follows it. */
  lemma {:induction false} FeedWordOpen(r: Reader, w: string)
    requires Between(r) && IsIdentifier(w)
    ensures Feed(r, w + " ( ") == Reader([], Inside(r.items + [Atom(w)], r.around), "")
  {
    FeedConcat(r, w, " ( ");
    FeedIdentifier(r, w);
    assert r.word + w == w;
    Feed3(r.(word := w), ' ', '(', ' ');
  }

  lemma {:induction false} FeedAllowEnd(r: Reader, a: seq<Sexp>, b: seq<Sexp>, c: seq<Sexp>, around: Enclosing)
    requires r.Reader? && r.around == Inside(a, Inside(b, Inside(c, around)))
    ensures Feed(r, " )))\n") == Reader(c + [Node(b + [Node(a + [Node(Flushed(r))])])], around, "")
  {
    assert " )))\n" == " ))" + ")\n";
    FeedConcat(r, " ))", ")\n");
    Feed3(r, ' ', ')', ')');
    Feed2(Feed(r, " ))"), ')', '\n');
  }

  /** The lists of a rule as they are closed, from the innermost outwards. */
  lemma {:induction false} AllowShape(final: string, class_: string, sorted: seq<string>)
    ensures Node([Atom(ALLOW), Atom(PROCESS)] + [Atom(final)]
                 + [Node([] + [Atom(class_)] + [Node([] + Atoms(sorted))])])
         == AllowStatement(final, class_, sorted)
  {
    assert [] + Atoms(sorted) == Atoms(sorted);
    assert [] + [Atom(class_)] + [Node(Atoms(sorted))] == [Atom(class_), Node(Atoms(sorted))];
    assert [Atom(ALLOW), Atom(PROCESS)] + [Atom(final)] + [Node([Atom(class_), Node(Atoms(sorted))])]
        == AllowStatement(final, class_, sorted).items;
  }

  lemma {:induction false} FeedAllowLine(r: Reader, name: string, ttype: string, class_: string, perms: seq<string>)
    requires Between(r) && IsIdentifier(FinalType(name, ttype)) && IsIdentifier(class_)
    requires forall p | p in perms :: IsIdentifier(p)
    ensures Feed(r, AllowLine(name, ttype, class_, perms))
         == With(r, [AllowStatement(FinalType(name, ttype), class_, SortCompact(StringLe, perms))])
  {
    var final, sorted := FinalType(name, ttype), SortCompact(StringLe, perms);
    StringOrder();
    SortCompactLists(StringLe, perms);
    var t2 := ALLOW_HEAD + (final + " ( ");
    var t3 := t2 + (class_ + " ( ");
    var t4 := t3 + Join(sorted);
    FeedConcat(r, t4, " )))\n");
    FeedConcat(r, t3, Join(sorted));
    FeedConcat(r, t2, class_ + " ( ");
    FeedConcat(r, ALLOW_HEAD, final + " ( ");
    FeedAllowHead(r);
    var head := [Atom(ALLOW), Atom(PROCESS)];
    FeedWordOpen(Reader(head, Inside(r.items, r.around), ""), final);
    var around1 := Inside(head + [Atom(final)], Inside(r.items, r.around));
    FeedWordOpen(Reader([], around1, ""), class_);
    FeedJoin(Reader([], Inside([] + [Atom(class_)], around1), ""), sorted);
    FeedAllowEnd(Feed(r, t4), [] + [Atom(class_)], head + [Atom(final)], r.items, r.around);
    AllowShape(final, class_, sorted);
  }

  // ---------------------------------------------------------------- statements of the sections

  function InheritStatements(inherits: seq<string>): seq<Sexp> {
    seq(|inherits|, i requires 0 <= i < |inherits| => InheritStatement(inherits[i]))
  }

  function ClassStatements(name: string, ttype: string, classes: seq<string>, m: map<string, seq<string>>): seq<Sexp>
    requires forall c | c in classes :: c in m
  {
    seq(|classes|, i requires 0 <= i < |classes| =>
      AllowStatement(FinalType(name, ttype), classes[i], SortCompact(StringLe, m[classes[i]])))
  }

  ghost function TypeStatements(name: string, types: seq<string>, allow: Allow): seq<Sexp>
    requires forall t | t in types :: t in allow
  {
    if types == [] then []
    else
      var k := |types| - 1;
      TypeStatements(name, types[..k], allow)
      + ClassStatements(name, types[k], SortedList(allow[types[k]].Keys), allow[types[k]])
  }

  lemma {:induction false} FeedInheritLines(r: Reader, inherits: seq<string>)
    requires Between(r) && forall i | i in inherits :: IsIdentifier(i)
    ensures Feed(r, InheritLines(inherits)) == With(r, InheritStatements(inherits))
    decreases |inherits|
  {
    if inherits != [] {
      var k := |inherits| - 1;
      FeedInheritLines(r, inherits[..k]);
      FeedConcat(r, InheritLines(inherits[..k]), InheritLine(inherits[k]));
      KeywordsAreIdentifiers();
      FeedStatement(With(r, InheritStatements(inherits[..k])), BLOCKINHERIT, inherits[k]);
      assert InheritStatements(inherits) == InheritStatements(inherits[..k]) + [InheritStatement(inherits[k])];
    }
  }

  /** Two texts in a row: the statements of both are read. */
  lemma {:induction false} FeedBoth(r: Reader, a: string, b: string, xs: seq<Sexp>, ys: seq<Sexp>)
    requires Between(r) && Feed(r, a) == With(r, xs) && Feed(With(r, xs), b) == With(With(r, xs), ys)
    ensures Feed(r, a + b) == With(r, xs + ys)
  {
    FeedConcat(r, a, b);
    assert r.items + xs + ys == r.items + (xs + ys);
  }

  lemma {:induction false} ClassStatementsLast(name: string, ttype: string, classes: seq<string>, m: map<string,
                                               seq<string>>, k: nat)
    requires k + 1 == |classes| && forall c | c in classes :: c in m
    ensures ClassStatements(name, ttype, classes, m) == ClassStatements(name, ttype, classes[..k], m)
         + [AllowStatement(FinalType(name, ttype), classes[k], SortCompact(StringLe, m[classes[k]]))]
  {
  }

  lemma {:induction false} FeedClassLines(r: Reader, name: string, ttype: string, classes: seq<string>,
                                          m: map<string, seq<string>>)
    requires Between(r) && IsIdentifier(FinalType(name, ttype)) && forall c | c in classes :: c in m
    requires forall c | c in classes :: IsIdentifier(c) && forall p | p in m[c] :: IsIdentifier(p)
    ensures Feed(r, ClassLines(name, ttype, classes, m)) == With(r, ClassStatements(name, ttype, classes, m))
    decreases |classes|
  {
    if classes == [] {
      assert r.items + [] == r.items;
    } else {
      var k := |classes| - 1;
      var c, before := classes[k], ClassStatements(name, ttype, classes[..k], m);
      FeedClassLines(r, name, ttype, classes[..k], m);
      FeedAllowLine(With(r, before), name, ttype, c, m[c]);
      FeedBoth(r, ClassLines(name, ttype, classes[..k], m), AllowLine(name, ttype, c, m[c]), before,
               [AllowStatement(FinalType(name, ttype), c, SortCompact(StringLe, m[c]))]);
      ClassStatementsLast(name, ttype, classes, m, k);
    }
  }

  /** The lines of one type, all of whose rules are valid. */
  lemma {:induction false} FeedTypeLine(r: Reader, name: string, ttype: string, m: map<string, seq<string>>, d: Denied)
    requires Between(r) && IsBlockName(name) && forall c | c in m :: ValidRule(d, ttype, c, m[c])
    ensures Feed(r, ClassLines(name, ttype, SortedList(m.Keys), m))
         == With(r, ClassStatements(name, ttype, SortedList(m.Keys), m))
  {
    var classes := SortedList(m.Keys);
    if classes == [] {
      assert r.items + ClassStatements(name, ttype, classes, m) == r.items;
    } else {
      UsageIsIdentifier(name);
      assert classes[0] in m && ValidRule(d, ttype, classes[0], m[classes[0]]);
      FeedClassLines(r, name, ttype, classes, m);
    }
  }

  lemma {:induction false} FeedTypeLines(r: Reader, name: string, types: seq<string>, allow: Allow, d: Denied)
    requires Between(r) && IsBlockName(name) && RulesValid(allow, d)
    requires forall t | t in types :: t in allow
    ensures Feed(r, TypeLines(name, types, allow)) == With(r, TypeStatements(name, types, allow))
    decreases |types|
  {
    if types != [] {
      var k := |types| - 1;
      var t, m := types[k], allow[types[k]];
      var before := TypeStatements(name, types[..k], allow);
      FeedTypeLines(r, name, types[..k], allow, d);
      FeedTypeLine(With(r, before), name, t, m, d);
      FeedBoth(r, TypeLines(name, types[..k], allow), ClassLines(name, t, SortedList(m.Keys), m),
               before, ClassStatements(name, t, SortedList(m.Keys), m));
    } else {
      assert r.items + [] == r.items;
    }
  }

  function PermissiveStatements(permissive: bool): seq<Sexp> {
    if permissive then [PERMISSIVE_STATEMENT] else []
  }

  ghost function Statements(system: seq<string>, profiles: seq<string>, p: Profile): seq<Sexp> {
    InheritStatements(Inherits(system, profiles))
    + PermissiveStatements(p.permissive)
    + TypeStatements(p.name, SortedList(p.allow.Keys), p.allow)
  }

  lemma {:induction false} OthersAreSystem(system: seq<string>)
    ensures forall i | i in OtherThanContainer(system) :: i in system && i != SYSTEM_CONTAINER
  {
    if system != [] {
      OthersAreSystem(system[..|system| - 1]);
    }
  }

  /** The text is one block with the expected statements. */
  lemma {:induction false} TextReadsBack(system: seq<string>, profiles: seq<string>, p: Profile, o: Options)
    requires Translatable(system, profiles, p, o)
    ensures Read(CilText(system, profiles, p))
         == Some([Node([Atom(BLOCK), Atom(p.name)] + Statements(system, profiles, p))])
  {
    var r0 := Reader([], Outermost, "");
    var r1 := Reader([Atom(BLOCK), Atom(p.name)], Inside([], Outermost), "");
    var statements := Statements(system, profiles, p);
    FeedConcat(r0, StartText(p.name) + BodyText(system, profiles, p), ")\n");
    FeedConcat(r0, StartText(p.name), BodyText(system, profiles, p));
    FeedStart(p.name);
    FeedBody(r1, system, profiles, p, o);
    Feed2(With(r1, statements), ')', '\n');
    assert [] + [Node(r1.items + statements)] == [Node(r1.items + statements)];
  }

  lemma {:induction false} FeedBody(r: Reader, system: seq<string>, profiles: seq<string>, p: Profile, o: Options)
    requires Between(r) && Translatable(system, profiles, p, o)
    ensures Feed(r, BodyText(system, profiles, p)) == With(r, Statements(system, profiles, p))
  {
    var inherits, types := Inherits(system, profiles), SortedList(p.allow.Keys);
    var xs, ys := InheritStatements(inherits), PermissiveStatements(p.permissive);
    OthersAreSystem(system);
    FeedInheritLines(r, inherits);
    FeedPermissiveText(With(r, xs), p.permissive);
    FeedBoth(r, InheritLines(inherits), PermissiveText(p.permissive), xs, ys);
    FeedTypeLines(With(r, xs + ys), p.name, types, p.allow, DeniedBy(o));
    FeedBoth(r, InheritLines(inherits) + PermissiveText(p.permissive), TypeLines(p.name, types, p.allow),
             xs + ys, TypeStatements(p.name, types, p.allow));
  }

  lemma {:induction false} FeedStart(name: string)
    requires IsBlockName(name)
    ensures Feed(Reader([], Outermost, ""), StartText(name))
         == Reader([Atom(BLOCK), Atom(name)], Inside([], Outermost), "")
  {
    var r0 := Reader([], Outermost, "");
    FeedConcat(r0, "(" + BLOCK + " ", name + "\n");
    KeywordsAreIdentifiers();
    FeedKeyword(r0, BLOCK);
    UsageIsIdentifier(name);
    FeedWord(Reader([Atom(BLOCK)], Inside([], Outermost), ""), name, '\n');
  }

  lemma {:induction false} FeedPermissiveText(r: Reader, permissive: bool)
    requires Between(r)
    ensures Feed(r, PermissiveText(permissive)) == With(r, PermissiveStatements(permissive))
  {
    if permissive {
      KeywordsAreIdentifiers();
      FeedStatement(r, TYPEPERMISSIVE, PROCESS);
    } else {
      assert r.items + [] == r.items;
    }
  }

  // ---------------------------------------------------------------- what the statements mean

  ghost function ClassRules(name: string, ttype: string, classes: seq<string>, m: map<string, seq<string>>): set<Rule>
    requires forall c | c in classes :: c in m
  {
    set c, x | c in classes && x in m[c] :: Rule(FinalType(name, ttype), c, x)
  }

  ghost function TypeRules(name: string, types: seq<string>, allow: Allow): set<Rule>
    requires forall t | t in types :: t in allow
  {
    set t, c, x | t in types && c in allow[t] && x in allow[t][c] :: Rule(FinalType(name, t), c, x)
  }

  /** The rules of a spec: every type, class and permission, with `@self` resolved. */
  ghost function SpecRules(p: Profile): set<Rule> {
    set t, c, x | t in p.allow && c in p.allow[t] && x in p.allow[t][c] :: Rule(FinalType(p.name, t), c, x)
  }

  lemma {:induction false} InheritsMean(p: Policy, inherits: seq<string>)
    ensures InterpretAll(p, InheritStatements(inherits)) == Some(p.(inherits := p.inherits + inherits))
    decreases |inherits|
  {
    if inherits == [] {
      assert p.inherits + inherits == p.inherits;
    } else {
      assert InheritStatements(inherits)[1..] == InheritStatements(inherits[1..]);
      InheritsMean(p.(inherits := p.inherits + [inherits[0]]), inherits[1..]);
      assert p.inherits + [inherits[0]] + inherits[1..] == p.inherits + inherits;
    }
  }

  lemma {:induction false} AllowMeans(p: Policy, ttype: string, class_: string, perms: seq<string>)
    ensures Interpret(p, AllowStatement(ttype, class_, SortCompact(StringLe, perms)))
         == Some(p.(rules := p.rules + set x | x in perms :: Rule(ttype, class_, x)))
  {
    StringOrder();
    SortCompactLists(StringLe, perms);
    var sorted := SortCompact(StringLe, perms);
    assert AllAtoms(Atoms(sorted));
    var got, want := RulesOf(ttype, class_, Atoms(sorted)), set x | x in perms :: Rule(ttype, class_, x);
    forall rule
      ensures rule in got <==> rule in want
    {
      if rule in want {
        assert rule.permission in sorted;
        var i :| 0 <= i < |sorted| && sorted[i] == rule.permission;
        assert Atoms(sorted)[i].name == rule.permission;
      }
      if rule in got {
        var i :| 0 <= i < |Atoms(sorted)| && rule == Rule(ttype, class_, Atoms(sorted)[i].name);
        assert sorted[i] in sorted;
      }
    }
    assert got == want;
  }

  lemma {:induction false} ClassesMean(p: Policy, name: string, ttype: string, classes: seq<string>,
                                       m: map<string, seq<string>>)
    requires forall c | c in classes :: c in m
    ensures InterpretAll(p, ClassStatements(name, ttype, classes, m))
         == Some(p.(rules := p.rules + ClassRules(name, ttype, classes, m)))
    decreases |classes|
  {
    if classes == [] {
      assert ClassRules(name, ttype, classes, m) == {};
      assert p.rules + {} == p.rules;
    } else {
      var t := FinalType(name, ttype);
      var first := set x | x in m[classes[0]] :: Rule(t, classes[0], x);
      AllowMeans(p, t, classes[0], m[classes[0]]);
      assert ClassStatements(name, ttype, classes, m)[1..] == ClassStatements(name, ttype, classes[1..], m);
      ClassesMean(p.(rules := p.rules + first), name, ttype, classes[1..], m);
      assert classes == [classes[0]] + classes[1..];
      assert ClassRules(name, ttype, classes, m) == first + ClassRules(name, ttype, classes[1..], m);
      assert p.rules + first + ClassRules(name, ttype, classes[1..], m)
          == p.rules + ClassRules(name, ttype, classes, m);
    }
  }

  lemma {:induction false} TypeRulesSplit(name: string, types: seq<string>, allow: Allow)
    requires types != [] && forall t | t in types :: t in allow
    ensures var k := |types| - 1;
            TypeRules(name, types, allow) == TypeRules(name, types[..k], allow)
              + ClassRules(name, types[k], SortedList(allow[types[k]].Keys), allow[types[k]])
  {
    var k := |types| - 1;
    var t, m := types[k], allow[types[k]];
    var classes := SortedList(m.Keys);
    assert types == types[..k] + [t];
    forall rule | rule in ClassRules(name, t, classes, m)
      ensures rule in TypeRules(name, types, allow)
    {
      assert t in types && rule.class_ in m && rule.permission in m[rule.class_];
    }
    forall rule | rule in TypeRules(name, types, allow)
      ensures rule in TypeRules(name, types[..k], allow) || rule in ClassRules(name, t, classes, m)
    {
      var t', c, x :| t' in types && c in allow[t'] && x in allow[t'][c] && rule == Rule(FinalType(name, t'), c, x);
      if t' == t {
        assert c in classes && x in m[c];
      }
    }
  }

  lemma {:induction false} TypesMean(p: Policy, name: string, types: seq<string>, allow: Allow)
    requires forall t | t in types :: t in allow
    ensures InterpretAll(p, TypeStatements(name, types, allow))
         == Some(p.(rules := p.rules + TypeRules(name, types, allow)))
    decreases |types|
  {
    if types == [] {
      assert TypeRules(name, types, allow) == {};
      assert p.rules + {} == p.rules;
    } else {
      var k := |types| - 1;
      var t, m := types[k], allow[types[k]];
      var classes := SortedList(m.Keys);
      TypesMean(p, name, types[..k], allow);
      InterpretConcat(p, TypeStatements(name, types[..k], allow), ClassStatements(name, t, classes, m));
      var p1 := p.(rules := p.rules + TypeRules(name, types[..k], allow));
      ClassesMean(p1, name, t, classes, m);
      TypeRulesSplit(name, types, allow);
      assert p1.rules + ClassRules(name, t, classes, m) == p.rules + TypeRules(name, types, allow);
    }
  }

  /** The policy a profile asks for. */
  ghost function Meaning(system: seq<string>, profiles: seq<string>, p: Profile): Policy {
    Policy(p.name, Inherits(system, profiles), p.permissive, SpecRules(p))
  }

  /**
   Reading the printed text back gives one block with the profile's name, the
   computed inherit list, the permissive flag and exactly the spec's rules.
   */
  lemma {:induction false} TextMeansProfile(system: seq<string>, profiles: seq<string>, p: Profile, o: Options)
    requires Translatable(system, profiles, p, o)
    ensures ReadPolicy(CilText(system, profiles, p)) == Some(Meaning(system, profiles, p))
  {
    TextReadsBack(system, profiles, p, o);
    var types := SortedList(p.allow.Keys);
    var a := InheritStatements(Inherits(system, profiles));
    var b := PermissiveStatements(p.permissive);
    var c := TypeStatements(p.name, types, p.allow);
    var p0 := Policy(p.name, [], false, {});
    var p1 := p0.(inherits := Inherits(system, profiles));
    var p2 := p1.(permissive := p.permissive);
    InheritsMean(p0, Inherits(system, profiles));
    assert [] + Inherits(system, profiles) == Inherits(system, profiles);
    assert InterpretAll(p1, b) == Some(p2) by {
      if p.permissive {
        assert b[1..] == [];
      }
    }
    InterpretConcat(p0, a, b);
    InterpretConcat(p0, a + b, c);
    TypesMean(p2, p.name, types, p.allow);
    assert {} + TypeRules(p.name, types, p.allow) == SpecRules(p);
    assert ([Atom(BLOCK), Atom(p.name)] + Statements(system, profiles, p))[2..] == a + b + c;
  }

  // ---------------------------------------------------------------- canonical text

  /** The same types and classes, and for each the same permissions in any order and number. */
  ghost predicate SameRules(a: Allow, b: Allow) {
    && a.Keys == b.Keys
    && forall t | t in a :: a[t].Keys == b[t].Keys
         && forall c | c in a[t] :: forall x :: x in a[t][c] <==> x in b[t][c]
  }

  lemma {:induction false} ClassLinesCanonical(name: string, ttype: string, classes: seq<string>,
                                               m: map<string, seq<string>>, m': map<string, seq<string>>)
    requires forall c | c in classes :: c in m && c in m' && forall x :: x in m[c] <==> x in m'[c]
    ensures ClassLines(name, ttype, classes, m) == ClassLines(name, ttype, classes, m')
    decreases |classes|
  {
    if classes != [] {
      var k := |classes| - 1;
      var c := classes[k];
      ClassLinesCanonical(name, ttype, classes[..k], m, m');
      StringOrder();
      SortCompactLists(StringLe, m'[c]);
      SortCompactUnique(StringLe, m[c], SortCompact(StringLe, m'[c]));
    }
  }

  lemma {:induction false} TypeLinesCanonical(name: string, types: seq<string>, a: Allow, b: Allow)
    requires SameRules(a, b) && forall t | t in types :: t in a && t in b
    ensures TypeLines(name, types, a) == TypeLines(name, types, b)
    decreases |types|
  {
    if types != [] {
      var k := |types| - 1;
      var t := types[k];
      TypeLinesCanonical(name, types[..k], a, b);
      ClassLinesCanonical(name, t, SortedList(a[t].Keys), a[t], b[t]);
    }
  }

  /** Permission order and repetition do not show in the text. */
  lemma {:induction false} TextCanonical(system: seq<string>, profiles: seq<string>, p: Profile, allow: Allow)
    requires SameRules(p.allow, allow)
    ensures CilText(system, profiles, p.(allow := allow)) == CilText(system, profiles, p)
  {
    TypeLinesCanonical(p.name, SortedList(p.allow.Keys), p.allow, allow);
  }

  /** Every rule of a translatable profile comes from names outside the denylists. */
  lemma {:induction false} NothingDenied(system: seq<string>, profiles: seq<string>, p: Profile, o: Options, rule: Rule)
    requires Translatable(system, profiles, p, o) && rule in SpecRules(p)
    ensures exists t | t in p.allow ::
              && rule.ttype == FinalType(p.name, t)
              && t !in DeniedBy(o).types
              && rule.class_ !in DeniedBy(o).classes
              && rule.permission !in DeniedBy(o).permissions
  {
    var t, c, x :| t in p.allow && c in p.allow[t] && x in p.allow[t][c]
                   && rule == Rule(FinalType(p.name, t), c, x);
    assert ValidRule(DeniedBy(o), t, c, p.allow[t][c]);
  }

  /** Some rule of the spec is for the profile's own type, by its placeholder. */
  ghost predicate SelfUsed(p: Profile) {
    SELF in p.allow && exists c | c in p.allow[SELF] :: p.allow[SELF][c] != []
  }

  /**
   The denylist is applied to the names of the spec, before the placeholder is
   replaced: no emitted rule is for a denied type exactly unless the profile's
   own type is denied and the placeholder is used.
   */
  lemma {:induction false} NoDeniedTypeIff(system: seq<string>, profiles: seq<string>, p: Profile, o: Options)
    requires Translatable(system, profiles, p, o)
    ensures (forall rule | rule in SpecRules(p) :: rule.ttype !in DeniedBy(o).types) <==>
            !(SelfUsed(p) && Usage(p.name) in DeniedBy(o).types)
  {
    if SelfUsed(p) {
      var c :| c in p.allow[SELF] && p.allow[SELF][c] != [];
      var x := p.allow[SELF][c][0];
      assert x in p.allow[SELF][c] && Rule(FinalType(p.name, SELF), c, x) in SpecRules(p);
    }
    forall rule | rule in SpecRules(p) && rule.ttype in DeniedBy(o).types
      ensures SelfUsed(p) && Usage(p.name) in DeniedBy(o).types
    {
      var t, c, x :| t in p.allow && c in p.allow[t] && x in p.allow[t][c]
                     && rule == Rule(FinalType(p.name, t), c, x);
      assert ValidRule(DeniedBy(o), t, c, p.allow[t][c]);
    }
  }

  /** A profile whose own type is denied, and which has a rule for it all the same. */
  lemma {:induction false} DeniedSelfIsEmitted()
    ensures var p := Profile("foo", false, map[SELF := map["file" := ["read"]]]);
            var o := Options(["foo.process"], [], [], [], [], []);
            && Translatable([], [], p, o)
            && Rule("foo.process", "file", "read") in SpecRules(p) && "foo.process" in DeniedBy(o).types
  {
    var p := Profile("foo", false, map[SELF := map["file" := ["read"]]]);
    var o := Options(["foo.process"], [], [], [], [], []);
    assert o.deniedTypes[0] in DeniedBy(o).types;
    assert ValidRule(DeniedBy(o), SELF, "file", ["read"]);
    assert SELF in p.allow && "file" in p.allow[SELF] && "read" in p.allow[SELF]["file"];
    assert Rule(FinalType("foo", SELF), "file", "read") in SpecRules(p);
    assert Usage("foo") == "foo.process";
  }
}
