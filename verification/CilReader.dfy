/**
 A one-pass reader of CIL text as s-expressions, and the meaning of a policy
 block read that way. It accepts nothing but identifiers, white space and
 parentheses, so text it reads has a single interpretation.
 */
module CilReader {

  import opened Wrappers

  datatype Sexp = Atom(name: string) | Node(items: seq<Sexp>)

  predicate IsLetter(c: char) {
    'a' <= c <= 'z' || 'A' <= c <= 'Z'
  }

  predicate IsIdentifierChar(c: char) {
    IsLetter(c) || '0' <= c <= '9' || c == '-' || c == '.' || c == '_'
  }

  /** `^[-a-zA-Z0-9._]+$`. */
  predicate IsIdentifier(s: string) {
    s != "" && forall i | 0 <= i < |s| :: IsIdentifierChar(s[i])
  }

  // ---------------------------------------------------------------- reading

  /** The lists around the one being read, innermost first. */
  datatype Enclosing = Outermost | Inside(items: seq<Sexp>, outer: Enclosing)

  /** The list being read, the lists around it, and the identifier being read. */
  datatype Reader = Reader(items: seq<Sexp>, around: Enclosing, word: string) | Bad

  function Flushed(r: Reader): seq<Sexp>
    requires r.Reader?
  {
    if r.word == "" then r.items else r.items + [Atom(r.word)]
  }

  function FeedChar(r: Reader, c: char): Reader {
    if r.Bad? then Bad
    else if c == '(' then Reader([], Inside(Flushed(r), r.around), "")
    else if c == ')' then
      match r.around
      case Outermost => Bad
      case Inside(items, outer) => Reader(items + [Node(Flushed(r))], outer, "")
    else if c == ' ' || c == '\n' then Reader(Flushed(r), r.around, "")
    else if IsIdentifierChar(c) then r.(word := r.word + [c])
    else Bad
  }

  function Feed(r: Reader, text: string): Reader
    decreases |text|
  {
    if text == "" then r else Feed(FeedChar(r, text[0]), text[1..])
  }

  function Read(text: string): Option<seq<Sexp>> {
    var r := Feed(Reader([], Outermost, ""), text);
    if r.Reader? && r.around.Outermost? then Some(Flushed(r)) else None
  }

  lemma {:induction false} FeedConcat(r: Reader, a: string, b: string)
    ensures Feed(r, a + b) == Feed(Feed(r, a), b)
    decreases |a|
  {
    if a == "" {
      assert a + b == b;
    } else {
      assert (a + b)[0] == a[0] && (a + b)[1..] == a[1..] + b;
      FeedConcat(FeedChar(r, a[0]), a[1..], b);
    }
  }

  lemma {:induction false} FeedOne(r: Reader, c: char)
    ensures Feed(r, [c]) == FeedChar(r, c)
  {
    assert [c][1..] == "";
  }

  function Levels(e: Enclosing): nat {
    match e
    case Outermost => 0
    case Inside(_, outer) => 1 + Levels(outer)
  }

  ghost predicate Closes(text: string) {
    multiset(text)[')'] <= multiset(text)['(']
  }

  ghost predicate NeverClosedTwice(text: string) {
    forall k | 0 <= k <= |text| :: Closes(text[..k])
  }

  predicate KnownChars(text: string) {
    forall c | c in text :: c in "() \n" || IsIdentifierChar(c)
  }

  lemma {:induction false} PrefixesExtend(text: string, c: char)
    ensures NeverClosedTwice(text + [c]) <==> NeverClosedTwice(text) && Closes(text + [c])
  {
    var longer := text + [c];
    assert longer[..|longer|] == longer;
    assert forall k | 0 <= k <= |text| :: longer[..k] == text[..k];
  }

  /** The reader goes on as long as it knows the characters and is not asked to close more than it opened. */
  lemma {:induction false} FeedLevels(text: string)
    ensures var r := Feed(Reader([], Outermost, ""), text);
            && (r.Reader? <==> KnownChars(text) && NeverClosedTwice(text))
            && (r.Reader? ==> Levels(r.around) + multiset(text)[')'] == multiset(text)['('])
  {
    var r0 := Reader([], Outermost, "");
    if text == "" {
      assert forall k | 0 <= k <= |text| :: text[..k] == "";
    } else {
      var k := |text| - 1;
      var t, c := text[..k], text[k];
      assert text == t + [c];
      FeedLevels(t);
      FeedConcat(r0, t, [c]);
      FeedOne(Feed(r0, t), c);
      PrefixesExtend(t, c);
    }
  }

  /** What can be read: known characters, as many closing as opening parentheses, and in no prefix more. */
  lemma {:induction false} ReadIff(text: string)
    ensures Read(text).Some? <==>
            KnownChars(text) && multiset(text)['('] == multiset(text)[')'] && NeverClosedTwice(text)
  {
    FeedLevels(text);
  }

  lemma {:induction false} FeedIdentifier(r: Reader, w: string)
    requires r.Reader? && forall i | 0 <= i < |w| :: IsIdentifierChar(w[i])
    ensures Feed(r, w) == r.(word := r.word + w)
    decreases |w|
  {
    if w == "" {
      assert r.word + w == r.word;
    } else {
      FeedIdentifier(FeedChar(r, w[0]), w[1..]);
      assert r.word + [w[0]] + w[1..] == r.word + w;
    }
  }

  /** An identifier and the character that ends it. */
  lemma {:induction false} FeedWord(r: Reader, w: string, end: char)
    requires r.Reader? && r.word == "" && IsIdentifier(w) && (end == ' ' || end == '\n')
    ensures Feed(r, w + [end]) == r.(items := r.items + [Atom(w)])
  {
    FeedConcat(r, w, [end]);
    FeedIdentifier(r, w);
    assert r.word + w == w;
    FeedOne(r.(word := w), end);
  }

  // ---------------------------------------------------------------- meaning

  /** An allow rule: the process may use the permission of the class on the type. */
  datatype Rule = Rule(ttype: string, class_: string, permission: string)

  datatype Policy = Policy(name: string, inherits: seq<string>, permissive: bool, rules: set<Rule>)

  const BLOCK := "block"
  const BLOCKINHERIT := "blockinherit"
  const TYPEPERMISSIVE := "typepermissive"
  const ALLOW := "allow"
  const PROCESS := "process"

  lemma {:induction false} KeywordsAreIdentifiers()
    ensures IsIdentifier(BLOCK) && IsIdentifier(BLOCKINHERIT) && IsIdentifier(TYPEPERMISSIVE)
    ensures IsIdentifier(ALLOW) && IsIdentifier(PROCESS)
  {
  }

  function InheritStatement(i: string): Sexp {
    Node([Atom(BLOCKINHERIT), Atom(i)])
  }

  function AllowStatement(ttype: string, class_: string, perms: seq<string>): Sexp {
    Node([Atom(ALLOW), Atom(PROCESS), Atom(ttype), Node([Atom(class_), Node(Atoms(perms))])])
  }

  const PERMISSIVE_STATEMENT := Node([Atom(TYPEPERMISSIVE), Atom(PROCESS)])

  function Atoms(names: seq<string>): seq<Sexp> {
    seq(|names|, i requires 0 <= i < |names| => Atom(names[i]))
  }

  predicate AllAtoms(items: seq<Sexp>) {
    forall i | 0 <= i < |items| :: items[i].Atom?
  }

  function RulesOf(ttype: string, class_: string, perms: seq<Sexp>): set<Rule>
    requires AllAtoms(perms)
  {
    set i | 0 <= i < |perms| :: Rule(ttype, class_, perms[i].name)
  }

  /** One statement of a block; anything but the three known forms has no meaning here. */
  function Interpret(p: Policy, s: Sexp): Option<Policy> {
    if !s.Node? then None
    else
      var items := s.items;
      if |items| == 2 && items[0] == Atom(BLOCKINHERIT) && items[1].Atom? then
        Some(p.(inherits := p.inherits + [items[1].name]))
      else if items == PERMISSIVE_STATEMENT.items then Some(p.(permissive := true))
      else if |items| == 4 && items[0] == Atom(ALLOW) && items[1] == Atom(PROCESS) && items[2].Atom?
           && items[3].Node? && |items[3].items| == 2 && items[3].items[0].Atom?
           && items[3].items[1].Node? && AllAtoms(items[3].items[1].items) then
        Some(p.(rules := p.rules + RulesOf(items[2].name, items[3].items[0].name, items[3].items[1].items)))
      else None
  }

  function InterpretAll(p: Policy, statements: seq<Sexp>): Option<Policy>
    decreases |statements|
  {
    if statements == [] then Some(p)
    else
      match Interpret(p, statements[0])
      case None => None
      case Some(p') => InterpretAll(p', statements[1..])
  }

  /** The policy a text declares: a single named block and the statements in it. */
  function ReadPolicy(text: string): Option<Policy> {
    match Read(text)
    case None => None
    case Some(top) =>
      if |top| == 1 && top[0].Node? && |top[0].items| >= 2
         && top[0].items[0] == Atom(BLOCK) && top[0].items[1].Atom? then
        InterpretAll(Policy(top[0].items[1].name, [], false, {}), top[0].items[2..])
      else None
  }

  lemma {:induction false} InterpretConcat(p: Policy, a: seq<Sexp>, b: seq<Sexp>)
    requires InterpretAll(p, a).Some?
    ensures InterpretAll(p, a + b) == InterpretAll(InterpretAll(p, a).value, b)
    decreases |a|
  {
    if a == [] {
      assert a + b == b;
    } else {
      assert (a + b)[0] == a[0] && (a + b)[1..] == a[1..] + b;
      InterpretConcat(Interpret(p, a[0]).value, a[1..], b);
    }
  }
}
