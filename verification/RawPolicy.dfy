/**
 The validation of a raw SELinux policy: the one-pass scan accepts exactly the
 texts with balanced parentheses in which no statement starts with a restricted
 directive, and in the block an accepted policy gets wrapped in, the first
 parenthesis is matched by the last one only. As in the scan, parentheses are
 counted as characters, whatever a CIL reader makes of comments and quotes.

 Policies are sequences of Unicode characters, so they are valid UTF-8. The
 Unicode classes of letters, digits and white space and the lower-casing are a
 parameter.
 */
module RawPolicy {

  import opened Alphabets
  import opened Wrappers

  datatype Unicode = Unicode(
    letterOrDigit: char -> bool,
    space: char -> bool,
    lower: string -> string)

  const RESTRICTED: set<string> := {
    "block", "blockstart", "booleanif", "category", "categoryorder", "class", "classmap", "classmapping",
    "classorder", "context", "dominance", "filecon", "genfscon", "level", "levelrange", "mls", "netifcon",
    "nodecon", "optional", "policycap", "portcon", "role", "roletype", "sensitivity", "sensitivityorder",
    "sid", "sidcontext", "sidorder", "tunable", "tunableif", "typepermissive", "user", "userrole"
  }

  const TEMPLATES: set<string> := {
    "config_container", "container", "home_container", "log_container", "net_container", "tmp_container",
    "tty_container", "virt_container", "x_container"
  }

  datatype Verdict =
    | Accepted
    | Empty
    | NullByte
    | InheritMalformed
    | InheritNotAllowed(name: string)
    | RestrictedDirective(directive: string)
    | BlockEscape
    | Unbalanced

  // ---------------------------------------------------------------- what the scan has to find

  predicate IsParen(c: char) {
    c == '(' || c == ')'
  }

  function Delta(c: char): int {
    if c == '(' then 1 else if c == ')' then -1 else 0
  }

  /** Opening minus closing parentheses. */
  function Depth(s: string): int {
    if s == "" then 0 else Depth(s[..|s| - 1]) + Delta(s[|s| - 1])
  }

  /** No prefix closes more than it opened. */
  ghost predicate NeverNegative(s: string) {
    forall k | 0 <= k <= |s| :: Depth(s[..k]) >= 0
  }

  ghost predicate Balanced(s: string) {
    NeverNegative(s) && Depth(s) == 0
  }

  predicate IsWordChar(u: Unicode, c: char) {
    !IsParen(c) && (u.letterOrDigit(c) || c == '_' || c == '-')
  }

  /** Position s follows an opening parenthesis with only separators in between. */
  ghost predicate OpensAt(u: Unicode, text: string, s: int) {
    0 <= s <= |text|
    && exists i | 0 <= i < s :: text[i] == '(' && forall j | i < j < s :: Separator(u, text[j])
  }

  predicate Separator(u: Unicode, c: char) {
    !IsParen(c) && !IsWordChar(u, c)
  }

  /** text[s..e] is a word, and nothing but separators stand between it and an opening parenthesis. */
  ghost predicate IsFirstWord(u: Unicode, text: string, s: int, e: int) {
    && OpensAt(u, text, s)
    && s < e <= |text|
    && (forall j | s <= j < e :: IsWordChar(u, text[j]))
    && (e < |text| ==> !IsWordChar(u, text[e]))
  }

  ghost predicate NoRestrictedFirstWord(u: Unicode, text: string) {
    forall s, e | IsFirstWord(u, text, s, e) :: u.lower(text[s..e]) !in RESTRICTED
  }

  // ---------------------------------------------------------------- the same, spelled out

  lemma {:induction false} DepthCounts(s: string)
    ensures Depth(s) + multiset(s)[')'] == multiset(s)['(']
    decreases |s|
  {
    if s != "" {
      DepthCounts(s[..|s| - 1]);
      assert s == s[..|s| - 1] + [s[|s| - 1]];
    }
  }

  /** Parentheses are balanced: no prefix has more closing than opening ones, and the text has as many. */
  ghost predicate Matched(text: string) {
    && multiset(text)['('] == multiset(text)[')']
    && forall k | 0 <= k <= |text| :: multiset(text[..k])['('] >= multiset(text[..k])[')']
  }

  lemma {:induction false} BalancedSpelled(text: string)
    ensures Balanced(text) <==> Matched(text)
  {
    DepthCounts(text);
    forall k | 0 <= k <= |text|
      ensures Depth(text[..k]) >= 0 <==> multiset(text[..k])['('] >= multiset(text[..k])[')']
    {
      DepthCounts(text[..k]);
    }
  }

  /** Only letters, digits, underscores and dashes. */
  ghost predicate WordsOnly(u: Unicode, s: string) {
    forall c | c in s :: c !in "()" && (u.letterOrDigit(c) || c in "_-")
  }

  /** Neither those nor parentheses. */
  ghost predicate SeparatorsOnly(u: Unicode, s: string) {
    forall c | c in s :: c !in "()" && !(u.letterOrDigit(c) || c in "_-")
  }

  /** The text has the word, after an opening parenthesis and separators. */
  ghost predicate StartsStatement(u: Unicode, text: string, pre: string, sep: string, word: string, post: string) {
    && text == pre + "(" + sep + word + post
    && SeparatorsOnly(u, sep) && word != "" && WordsOnly(u, word)
    && (post != "" ==> !WordsOnly(u, post[..1]))
  }

  ghost predicate NoStatementRestricted(u: Unicode, text: string) {
    forall pre, sep, word, post | StartsStatement(u, text, pre, sep, word, post) :: u.lower(word) !in RESTRICTED
  }

  lemma {:induction false} WordIsFirst(u: Unicode, text: string, pre: string, sep: string, word: string, post: string)
    requires StartsStatement(u, text, pre, sep, word, post)
    ensures var s := |pre| + 1 + |sep|; IsFirstWord(u, text, s, s + |word|) && text[s..s + |word|] == word
  {
    var s := |pre| + 1 + |sep|;
    assert text[|pre|] == '(';
    forall j | |pre| < j < s
      ensures Separator(u, text[j])
    {
      assert text[j] == sep[j - |pre| - 1] && text[j] in sep;
    }
    assert OpensAt(u, text, s);
    forall j | s <= j < s + |word|
      ensures IsWordChar(u, text[j])
    {
      assert text[j] == word[j - s] && text[j] in word;
    }
    if post != "" {
      assert text[s + |word|] == post[0] && post[..1] == [post[0]];
    }
  }

  lemma {:induction false} FiveParts(text: string, i: nat, start: nat, e: nat)
    requires i < start <= e <= |text| && text[i] == '('
    ensures text == text[..i] + "(" + text[i + 1..start] + text[start..e] + text[e..]
  {
  }

  lemma {:induction false} FirstIsWord(u: Unicode, text: string, s: int, e: int)
    returns (pre: string, sep: string, post: string)
    requires IsFirstWord(u, text, s, e)
    ensures StartsStatement(u, text, pre, sep, text[s..e], post)
  {
    var i :| 0 <= i < s && text[i] == '(' && forall j | i < j < s :: Separator(u, text[j]);
    pre, sep, post := text[..i], text[i + 1..s], text[e..];
    FiveParts(text, i, s, e);
    if post != "" {
      assert post[..1] == [text[e]] && post[0] in post[..1];
    }
  }

  lemma {:induction false} FirstWordsSpelled(u: Unicode, text: string)
    ensures NoRestrictedFirstWord(u, text) <==> NoStatementRestricted(u, text)
  {
    if NoRestrictedFirstWord(u, text) {
      forall pre, sep, word, post | StartsStatement(u, text, pre, sep, word, post)
        ensures u.lower(word) !in RESTRICTED
      {
        WordIsFirst(u, text, pre, sep, word, post);
      }
    }
    if NoStatementRestricted(u, text) {
      forall s, e | IsFirstWord(u, text, s, e)
        ensures u.lower(text[s..e]) !in RESTRICTED
      {
        var pre, sep, post := FirstIsWord(u, text, s, e);
      }
    }
  }

  // ---------------------------------------------------------------- the one-pass scan

  /** What the scan knows having consumed text[..k]; `depth`, `directive` and `at` are its variables. */
  ghost predicate ScanInv(u: Unicode, text: string, k: nat, depth: int, directive: string, at: bool) {
    && k <= |text|
    && depth == Depth(text[..k])
    && (forall j | 0 <= j <= k :: Depth(text[..j]) >= 0)
    && |directive| <= k && directive == text[k - |directive|..k]
    && (forall j | k - |directive| <= j < k :: IsWordChar(u, text[j]))
    && (|directive| < k ==> !IsWordChar(u, text[k - |directive| - 1]))
    && (at <==> OpensAt(u, text, k - |directive|))
    && (forall s, e | IsFirstWord(u, text, s, e) && e < k :: u.lower(text[s..e]) !in RESTRICTED)
  }

  lemma {:induction false} BeforeOpen(u: Unicode, text: string, s: int)
    requires OpensAt(u, text, s)
    ensures s > 0 && (text[s - 1] == '(' || Separator(u, text[s - 1]))
    ensures !IsWordChar(u, text[s - 1])
  {
  }

  /** A first word that ends at k is the scan's directive, and then it is at the directive position. */
  lemma {:induction false} WordEndingHere(u: Unicode, text: string, k: nat, depth: int, directive: string, at: bool,
                                          s: int)
    requires ScanInv(u, text, k, depth, directive, at) && IsFirstWord(u, text, s, k)
    ensures at && directive == text[s..k] && directive != ""
  {
    BeforeOpen(u, text, s);
    assert s == k - |directive|;
  }

  predicate Refused(u: Unicode, directive: string, at: bool) {
    directive != "" && at && u.lower(directive) in RESTRICTED
  }

  lemma {:induction false} DepthNext(text: string, k: nat)
    requires k < |text|
    ensures Depth(text[..k + 1]) == Depth(text[..k]) + Delta(text[k])
  {
    assert text[..k + 1][..k] == text[..k];
  }

  /** Completed first words stay unrestricted when the scan moves past position k. */
  lemma {:induction false} NextWordFine(u: Unicode, text: string, k: nat, depth: int, directive: string, at: bool)
    requires ScanInv(u, text, k, depth, directive, at) && k < |text|
    requires IsWordChar(u, text[k]) || !Refused(u, directive, at)
    ensures forall s, e | IsFirstWord(u, text, s, e) && e < k + 1 :: u.lower(text[s..e]) !in RESTRICTED
  {
    forall s, e | IsFirstWord(u, text, s, e) && e < k + 1
      ensures u.lower(text[s..e]) !in RESTRICTED
    {
      if e == k {
        WordEndingHere(u, text, k, depth, directive, at, s);
      }
    }
  }

  lemma {:induction false} StepParen(u: Unicode, text: string, k: nat, depth: int, directive: string, at: bool)
    requires ScanInv(u, text, k, depth, directive, at) && k < |text| && IsParen(text[k])
    requires !Refused(u, directive, at) && depth + Delta(text[k]) >= 0
    ensures ScanInv(u, text, k + 1, depth + Delta(text[k]), "", text[k] == '(')
  {
    DepthNext(text, k);
    NextWordFine(u, text, k, depth, directive, at);
    if OpensAt(u, text, k + 1) {
      BeforeOpen(u, text, k + 1);
    }
  }

  lemma {:induction false} SliceNext(text: string, s: nat, k: nat)
    requires s <= k < |text|
    ensures text[s..k + 1] == text[s..k] + [text[k]]
  {
  }

  lemma {:induction false} StepWord(u: Unicode, text: string, k: nat, depth: int, directive: string, at: bool)
    requires ScanInv(u, text, k, depth, directive, at) && k < |text| && IsWordChar(u, text[k])
    ensures ScanInv(u, text, k + 1, depth, directive + [text[k]], at)
  {
    DepthNext(text, k);
    NextWordFine(u, text, k, depth, directive, at);
    SliceNext(text, k - |directive|, k);
    assert k + 1 - |directive + [text[k]]| == k - |directive|;
  }

  lemma {:induction false} OpensPastSeparator(u: Unicode, text: string, k: nat)
    requires k < |text| && Separator(u, text[k])
    ensures OpensAt(u, text, k + 1) <==> OpensAt(u, text, k)
  {
    if OpensAt(u, text, k + 1) {
      var i :| 0 <= i < k + 1 && text[i] == '(' && forall j | i < j < k + 1 :: Separator(u, text[j]);
      assert i < k;
    }
    if OpensAt(u, text, k) {
      var i :| 0 <= i < k && text[i] == '(' && forall j | i < j < k :: Separator(u, text[j]);
      assert forall j | i < j < k + 1 :: Separator(u, text[j]);
    }
  }

  lemma {:induction false} NotAfterWord(u: Unicode, text: string, k: nat)
    requires 0 < k <= |text| && IsWordChar(u, text[k - 1])
    ensures !OpensAt(u, text, k)
  {
    assert !Separator(u, text[k - 1]) && text[k - 1] != '(';
  }

  lemma {:induction false} StepSeparator(u: Unicode, text: string, k: nat, depth: int, directive: string, at: bool)
    requires ScanInv(u, text, k, depth, directive, at) && k < |text| && Separator(u, text[k])
    requires !Refused(u, directive, at)
    ensures ScanInv(u, text, k + 1, depth, "", at && directive == "")
  {
    DepthNext(text, k);
    NextWordFine(u, text, k, depth, directive, at);
    OpensPastSeparator(u, text, k);
    if directive != "" {
      NotAfterWord(u, text, k);
    }
  }

  /** A refused directive is a first word of the text. */
  lemma {:induction false} RefusedWord(u: Unicode, text: string, k: nat, depth: int, directive: string, at: bool)
    requires ScanInv(u, text, k, depth, directive, at) && Refused(u, directive, at)
    requires k < |text| ==> !IsWordChar(u, text[k])
    ensures !NoRestrictedFirstWord(u, text) && IsRestrictedFirstWord(u, text, u.lower(directive))
  {
    assert IsFirstWord(u, text, k - |directive|, k);
  }

  ghost predicate IsRestrictedFirstWord(u: Unicode, text: string, word: string) {
    word in RESTRICTED && exists s, e :: IsFirstWord(u, text, s, e) && u.lower(text[s..e]) == word
  }

  /** Whatever the scan answers, if it is a refusal, is true of the text. */
  ghost predicate ScanRefusalHolds(u: Unicode, text: string, v: Verdict) {
    match v
    case Accepted => true
    case RestrictedDirective(word) => IsRestrictedFirstWord(u, text, word)
    case BlockEscape => !NeverNegative(text)
    case Unbalanced => NeverNegative(text) && Depth(text) > 0
    case _ => false
  }

  /** The scan of ValidatePolicy, with the variables of the source. */
  method Scan(u: Unicode, text: string) returns (v: Verdict)
    ensures v == Accepted <==> Balanced(text) && NoRestrictedFirstWord(u, text)
    ensures ScanRefusalHolds(u, text, v)
  {
    var depth, directive, at := 0, "", false;
    for k := 0 to |text|
      invariant ScanInv(u, text, k, depth, directive, at)
    {
      var c := text[k];
      if IsParen(c) {
        if Refused(u, directive, at) {
          RefusedWord(u, text, k, depth, directive, at);
          return RestrictedDirective(u.lower(directive));
        }
        if depth + Delta(c) < 0 {
          DepthNext(text, k);
          return BlockEscape;
        }
        StepParen(u, text, k, depth, directive, at);
        depth, directive, at := depth + Delta(c), "", c == '(';
      } else if IsWordChar(u, c) {
        StepWord(u, text, k, depth, directive, at);
        directive := directive + [c];
      } else {
        if Refused(u, directive, at) {
          RefusedWord(u, text, k, depth, directive, at);
          return RestrictedDirective(u.lower(directive));
        }
        StepSeparator(u, text, k, depth, directive, at);
        if directive != "" {
          directive, at := "", false;
        }
      }
    }
    assert text[..|text|] == text;
    if Refused(u, directive, at) {
      RefusedWord(u, text, |text|, depth, directive, at);
      return RestrictedDirective(u.lower(directive));
    }
    if depth != 0 {
      return Unbalanced;
    }
    ScanDone(u, text, depth, directive, at);
    return Accepted;
  }

  lemma {:induction false} ScanDone(u: Unicode, text: string, depth: int, directive: string, at: bool)
    requires ScanInv(u, text, |text|, depth, directive, at) && !Refused(u, directive, at)
    ensures NoRestrictedFirstWord(u, text)
  {
    forall s, e | IsFirstWord(u, text, s, e)
      ensures u.lower(text[s..e]) !in RESTRICTED
    {
      if e == |text| {
        WordEndingHere(u, text, |text|, depth, directive, at, s);
      }
    }
  }

  // ---------------------------------------------------------------- inherited templates

  const BLOCKINHERIT := "blockinherit"

  /** The white space `\s` matches. */
  predicate RegexSpace(c: char) {
    c == ' ' || c == '\t' || c == '\n' || c == '\r' || c == '\U{000C}'
  }

  predicate TemplateChar(c: char) {
    'a' <= c <= 'z' || 'A' <= c <= 'Z' || '0' <= c <= '9' || c == '_'
  }

  /** Case-insensitive equality with a lower case letter; the Kelvin sign folds to k. */
  predicate Folds(c: char, letter: char) {
    c == letter
    || ('A' <= c <= 'Z' && (c as int) + 32 == letter as int)
    || (letter == 'k' && c == '\U{212A}')
  }

  /** The first position from i on that is no white space. */
  function SkipSpace(text: string, i: nat): (r: nat)
    requires i <= |text|
    ensures i <= r <= |text|
    ensures forall j | i <= j < r :: RegexSpace(text[j])
    ensures r < |text| ==> !RegexSpace(text[r])
    decreases |text| - i
  {
    if i < |text| && RegexSpace(text[i]) then SkipSpace(text, i + 1) else i
  }

  function SkipTemplate(text: string, i: nat): (r: nat)
    requires i <= |text|
    ensures i <= r <= |text|
    ensures forall j | i <= j < r :: TemplateChar(text[j])
    ensures r < |text| ==> !TemplateChar(text[r])
    decreases |text| - i
  {
    if i < |text| && TemplateChar(text[i]) then SkipTemplate(text, i + 1) else i
  }

  predicate KeywordAt(text: string, i: nat) {
    i + |BLOCKINHERIT| <= |text| && forall k | 0 <= k < |BLOCKINHERIT| :: Folds(text[i + k], BLOCKINHERIT[k])
  }

  /** A match of `(?i)\(\s*blockinherit` starts at i. */
  predicate InheritAt(text: string, i: nat) {
    i < |text| && text[i] == '(' && KeywordAt(text, SkipSpace(text, i + 1))
  }

  function InheritEnd(text: string, i: nat): nat
    requires InheritAt(text, i)
  {
    SkipSpace(text, i + 1) + |BLOCKINHERIT|
  }

  /** The template a well-formed statement at i names. */
  function InheritedTemplate(text: string, i: nat): Option<string>
    requires InheritAt(text, i)
  {
    var e := InheritEnd(text, i);
    var start := SkipSpace(text, e);
    var stop := SkipTemplate(text, start);
    var close := SkipSpace(text, stop);
    if e < start < stop && close < |text| && text[close] == ')' then Some(text[start..stop]) else None
  }

  predicate InheritAllowed(text: string, i: nat)
    requires InheritAt(text, i)
  {
    InheritedTemplate(text, i).Some? && InheritedTemplate(text, i).value in TEMPLATES
  }

  ghost predicate InheritsAllowed(text: string) {
    forall i: nat | InheritAt(text, i) :: InheritAllowed(text, i)
  }

  // ---------------------------------------------------------------- inherited templates, spelled out

  ghost predicate WhiteOnly(s: string) {
    forall c | c in s :: c in " \t\n\r\U{000C}"
  }

  /** The keyword in any mixture of cases, with the Kelvin sign for a k. */
  ghost predicate IsKeyword(w: string) {
    && |w| == |"blockinherit"|
    && forall k | 0 <= k < |w| ::
         w[k] == "blockinherit"[k] || IsCapitalOf(w[k], "blockinherit"[k])
         || ("blockinherit"[k] == 'k' && w[k] == '\U{212A}')
  }

  /** What follows the keyword: white space, an allowed template, and the end of the list. */
  ghost predicate EndsStatement(post: string, ws: string, name: string, ws': string, rest: string) {
    && post == ws + name + ws' + ")" + rest
    && ws != "" && WhiteOnly(ws) && WhiteOnly(ws') && name in TEMPLATES
  }

  ghost predicate NamesTemplate(post: string) {
    exists ws, name, ws', rest :: EndsStatement(post, ws, name, ws', rest)
  }

  /** The keyword stands after an opening parenthesis and white space. */
  ghost predicate StartsInherit(text: string, pre: string, ws: string, w: string, post: string) {
    text == pre + "(" + ws + w + post && WhiteOnly(ws) && IsKeyword(w)
  }

  /** Every statement that starts with the keyword inherits an allowed template, and nothing else. */
  ghost predicate OnlyTemplatesInherited(text: string) {
    forall pre, ws, w, post | StartsInherit(text, pre, ws, w, post) :: NamesTemplate(post)
  }

  lemma {:induction false} KeywordIff(text: string, i: nat)
    requires i + 12 <= |text|
    ensures KeywordAt(text, i) <==> IsKeyword(text[i..i + 12])
  {
    assert |BLOCKINHERIT| == 12;
    var w := text[i..i + 12];
    forall k | 0 <= k < 12
      ensures Folds(text[i + k], BLOCKINHERIT[k]) <==>
              w[k] == BLOCKINHERIT[k] || IsCapitalOf(w[k], BLOCKINHERIT[k])
              || (BLOCKINHERIT[k] == 'k' && w[k] == '\U{212A}')
    {
      CapitalIff(w[k], BLOCKINHERIT[k]);
    }
  }

  /** The keyword starts with no white space. */
  lemma {:induction false} KeywordIsNotWhite(w: string)
    requires IsKeyword(w)
    ensures w != "" && !RegexSpace(w[0])
  {
    CapitalIff(w[0], 'b');
    assert "blockinherit"[0] == 'b';
  }

  lemma {:induction false} SkipSpaceTo(text: string, i: nat, j: nat)
    requires i <= j <= |text| && WhiteOnly(text[i..j]) && (j < |text| ==> !RegexSpace(text[j]))
    ensures SkipSpace(text, i) == j
  {
    assert forall k | i <= k < j :: text[k] == text[i..j][k - i] && text[k] in text[i..j];
  }

  lemma {:induction false} SkipTemplateTo(text: string, i: nat, j: nat)
    requires i <= j <= |text| && (forall k | i <= k < j :: TemplateChar(text[k]))
    requires j < |text| ==> !TemplateChar(text[j])
    ensures SkipTemplate(text, i) == j
  {
  }

  lemma {:induction false} SkippedIsWhite(text: string, i: nat)
    requires i <= |text|
    ensures WhiteOnly(text[i..SkipSpace(text, i)])
  {
  }

  lemma {:induction false} TemplatesAreNames(name: string)
    requires name in TEMPLATES
    ensures name != "" && forall k | 0 <= k < |name| :: TemplateChar(name[k])
  {
  }

  lemma {:induction false} StartIsMatch(text: string, pre: string, ws: string, w: string, post: string)
    requires StartsInherit(text, pre, ws, w, post)
    ensures InheritAt(text, |pre|) && InheritEnd(text, |pre|) == |pre| + 1 + |ws| + 12
    ensures text[InheritEnd(text, |pre|)..] == post
  {
    var i, start := |pre|, |pre| + 1 + |ws|;
    assert text[i] == '(' && text[i + 1..start] == ws && text[start..start + 12] == w;
    KeywordIsNotWhite(w);
    assert text[start] == w[0];
    SkipSpaceTo(text, i + 1, start);
    KeywordIff(text, start);
  }

  lemma {:induction false} MatchIsStart(text: string, i: nat)
    requires InheritAt(text, i)
    ensures var start := SkipSpace(text, i + 1);
            StartsInherit(text, text[..i], text[i + 1..start], text[start..start + 12], text[InheritEnd(text, i)..])
  {
    var start := SkipSpace(text, i + 1);
    SkippedIsWhite(text, i + 1);
    KeywordIff(text, start);
    FiveParts(text, i, start, start + 12);
  }

  lemma {:induction false} NameCharIff(c: char)
    ensures TemplateChar(c) <==> c in LOWER || c in UPPER || c in DIGITS || c == '_'
  {
    LowerIff(c);
    UpperIff(c);
    DigitIff(c);
  }

  lemma {:induction false} TailParts(text: string, e: nat, a: string, b: string)
    requires e <= |text| && text[e..] == a + b
    ensures e + |a| <= |text| && text[e..e + |a|] == a && text[e + |a|..] == b
  {
    assert text[e..][..|a|] == a && text[e..][|a|..] == b;
  }

  lemma {:induction false} PartsFound(text: string, e: nat, ws: string, name: string, ws': string, rest: string)
    requires e <= |text| && text[e..] == ws + name + ws' + ")" + rest
    ensures var start := e + |ws|;
            var stop := start + |name|;
            var close := stop + |ws'|;
            && close < |text| && text[close] == ')'
            && text[e..start] == ws && text[start..stop] == name && text[stop..close] == ws'
  {
    assert ws + name + ws' + ")" + rest == ws + (name + (ws' + (")" + rest)));
    TailParts(text, e, ws, name + (ws' + (")" + rest)));
    TailParts(text, e + |ws|, name, ws' + (")" + rest));
    TailParts(text, e + |ws| + |name|, ws', ")" + rest);
    assert text[e + |ws| + |name| + |ws'|..][0] == ')';
  }

  lemma {:induction false} NameSkipped(text: string, start: nat, stop: nat, name: string)
    requires start <= stop < |text| && text[start..stop] == name && !TemplateChar(text[stop])
    requires forall c | c in name :: c in LOWER || c in UPPER || c in DIGITS || c == '_'
    ensures SkipTemplate(text, start) == stop
    ensures name != "" ==> TemplateChar(text[start])
  {
    forall k | start <= k < stop
      ensures TemplateChar(text[k])
    {
      assert text[k] == name[k - start] && text[k] in name;
      NameCharIff(text[k]);
    }
    SkipTemplateTo(text, start, stop);
  }

  /** The name the match at i finds, template or not. */
  lemma {:induction false} NameFound(text: string, i: nat, ws: string, name: string, ws': string, rest: string)
    requires InheritAt(text, i) && text[InheritEnd(text, i)..] == ws + name + ws' + ")" + rest
    requires ws != "" && WhiteOnly(ws) && WhiteOnly(ws') && name != ""
    requires forall c | c in name :: c in LOWER || c in UPPER || c in DIGITS || c == '_'
    ensures InheritedTemplate(text, i) == Some(name)
  {
    var e := InheritEnd(text, i);
    var start := e + |ws|;
    var stop := start + |name|;
    var close := stop + |ws'|;
    PartsFound(text, e, ws, name, ws', rest);
    if stop < close {
      assert text[stop] == ws'[0] && ws'[0] in ws';
    }
    NameSkipped(text, start, stop, name);
    SkipSpaceTo(text, e, start);
    SkipSpaceTo(text, stop, close);
  }

  lemma {:induction false} TemplateFound(text: string, i: nat, ws: string, name: string, ws': string, rest: string)
    requires InheritAt(text, i) && EndsStatement(text[InheritEnd(text, i)..], ws, name, ws', rest)
    ensures InheritedTemplate(text, i) == Some(name)
  {
    TemplatesAreNames(name);
    forall c | c in name
      ensures c in LOWER || c in UPPER || c in DIGITS || c == '_'
    {
      NameCharIff(c);
    }
    NameFound(text, i, ws, name, ws', rest);
  }

  lemma {:induction false} TemplateEnds(text: string, i: nat)
    requires InheritAt(text, i) && InheritAllowed(text, i)
    ensures NamesTemplate(text[InheritEnd(text, i)..])
  {
    var e := InheritEnd(text, i);
    var start := SkipSpace(text, e);
    var stop := SkipTemplate(text, start);
    var close := SkipSpace(text, stop);
    SkippedIsWhite(text, e);
    SkippedIsWhite(text, stop);
    FourParts(text, e, start, stop, close);
    assert EndsStatement(text[e..], text[e..start], text[start..stop], text[stop..close], text[close + 1..]);
  }

  lemma {:induction false} FourParts(text: string, e: nat, start: nat, stop: nat, close: nat)
    requires e <= start <= stop <= close < |text| && text[close] == ')'
    ensures text[e..] == text[e..start] + text[start..stop] + text[stop..close] + ")" + text[close + 1..]
  {
  }

  /** A template is found exactly where the statement ends as it has to. */
  lemma {:induction false} TemplateIff(text: string, i: nat)
    requires InheritAt(text, i)
    ensures InheritAllowed(text, i) <==> NamesTemplate(text[InheritEnd(text, i)..])
  {
    if InheritAllowed(text, i) {
      TemplateEnds(text, i);
    }
    var post := text[InheritEnd(text, i)..];
    if NamesTemplate(post) {
      var ws, name, ws', rest :| EndsStatement(post, ws, name, ws', rest);
      TemplateFound(text, i, ws, name, ws', rest);
    }
  }

  lemma {:induction false} AllowedStart(text: string, pre: string, ws: string, w: string, post: string)
    requires InheritsAllowed(text) && StartsInherit(text, pre, ws, w, post)
    ensures NamesTemplate(post)
  {
    StartIsMatch(text, pre, ws, w, post);
    TemplateIff(text, |pre|);
  }

  lemma {:induction false} NamedStart(text: string, pre: string, ws: string, w: string, post: string)
    requires OnlyTemplatesInherited(text) && StartsInherit(text, pre, ws, w, post)
    ensures NamesTemplate(post)
  {
  }

  lemma {:induction false} NamedMatch(text: string, i: nat)
    requires OnlyTemplatesInherited(text) && InheritAt(text, i)
    ensures InheritAllowed(text, i)
  {
    var start := SkipSpace(text, i + 1);
    MatchIsStart(text, i);
    NamedStart(text, text[..i], text[i + 1..start], text[start..start + 12], text[InheritEnd(text, i)..]);
    TemplateIff(text, i);
  }

  lemma {:induction false} InheritsSpelled(text: string)
    ensures InheritsAllowed(text) <==> OnlyTemplatesInherited(text)
  {
    if InheritsAllowed(text) {
      forall pre, ws, w, post | StartsInherit(text, pre, ws, w, post)
        ensures NamesTemplate(post)
      {
        AllowedStart(text, pre, ws, w, post);
      }
    }
    if OnlyTemplatesInherited(text) {
      forall i: nat | InheritAt(text, i)
        ensures InheritAllowed(text, i)
      {
        NamedMatch(text, i);
      }
    }
  }

  /** Text that has the keyword after no opening parenthesis passes, in whatever else it has. */
  lemma {:induction false} NoKeywordPasses(text: string)
    requires forall pre, ws, w, post | text == pre + "(" + ws + w + post && WhiteOnly(ws) :: !IsKeyword(w)
    ensures InheritsAllowed(text)
  {
    forall pre, ws, w, post
      ensures !StartsInherit(text, pre, ws, w, post)
    {
    }
    InheritsSpelled(text);
  }

  /** However the keyword is written, a name that is no template is refused. */
  lemma {:induction false} ForeignTemplateRefused(pre: string, ws: string, w: string, ws1: string, name: string,
                                                  ws2: string, rest: string)
    requires WhiteOnly(ws) && IsKeyword(w) && ws1 != "" && WhiteOnly(ws1) && WhiteOnly(ws2) && name !in TEMPLATES
    requires name != "" && forall c | c in name :: c in LOWER || c in UPPER || c in DIGITS || c == '_'
    ensures !InheritsAllowed(pre + "(" + ws + w + ws1 + name + ws2 + ")" + rest)
  {
    var text, post := pre + "(" + ws + w + ws1 + name + ws2 + ")" + rest, ws1 + name + ws2 + ")" + rest;
    assert text == pre + "(" + ws + w + post;
    StartIsMatch(text, pre, ws, w, post);
    var e := InheritEnd(text, |pre|);
    assert text[e..] == post;
    NameFound(text, |pre|, ws1, name, ws2, rest);
  }

  /** No match starts inside another one, so looking for the next one behind a match misses none. */
  lemma {:induction false} NoMatchInside(text: string, i: nat)
    requires InheritAt(text, i)
    ensures forall j: nat | i < j < InheritEnd(text, i) :: !InheritAt(text, j)
  {
    var start := SkipSpace(text, i + 1);
    forall j: nat | i < j < InheritEnd(text, i)
      ensures text[j] != '('
    {
      if start <= j {
        assert Folds(text[start + (j - start)], BLOCKINHERIT[j - start]);
      }
    }
  }

  ghost predicate InheritRefusalHolds(text: string, v: Verdict) {
    match v
    case Accepted => true
    case InheritMalformed => exists i: nat :: InheritAt(text, i) && InheritedTemplate(text, i).None?
    case InheritNotAllowed(name) =>
      name !in TEMPLATES && exists i: nat :: InheritAt(text, i) && InheritedTemplate(text, i) == Some(name)
    case _ => false
  }

  /** The matches in their order, up to one that is refused. */
  method FindRefusedInherit(text: string) returns (v: Verdict)
    ensures v == Accepted <==> InheritsAllowed(text)
    ensures InheritRefusalHolds(text, v)
  {
    var i := 0;
    while i < |text|
      invariant 0 <= i <= |text|
      invariant forall j: nat | j < i && InheritAt(text, j) :: InheritAllowed(text, j)
    {
      if InheritAt(text, i) {
        var template := InheritedTemplate(text, i);
        if template.None? {
          return InheritMalformed;
        }
        if template.value !in TEMPLATES {
          return InheritNotAllowed(template.value);
        }
        NoMatchInside(text, i);
        i := InheritEnd(text, i);
      } else {
        i := i + 1;
      }
    }
    return Accepted;
  }

  method ValidateBlockInherits(text: string) returns (v: Verdict)
    ensures v == Accepted <==> InheritsAllowed(text)
    ensures v == Accepted <==> OnlyTemplatesInherited(text)
    ensures InheritRefusalHolds(text, v)
  {
    InheritsSpelled(text);
    v := FindRefusedInherit(text);
  }

  // ---------------------------------------------------------------- validation

  predicate Blank(u: Unicode, text: string) {
    forall i | 0 <= i < |text| :: u.space(text[i])
  }

  /** What a raw policy has to be. */
  ghost predicate Acceptable(u: Unicode, text: string) {
    && !Blank(u, text)
    && '\0' !in text
    && InheritsAllowed(text)
    && Balanced(text)
    && NoRestrictedFirstWord(u, text)
  }

  /** The same, spelled out. */
  ghost predicate IsAcceptable(u: Unicode, text: string) {
    && (exists c | c in text :: !u.space(c)) && '\0' !in text
    && OnlyTemplatesInherited(text) && Matched(text) && NoStatementRestricted(u, text)
  }

  lemma {:induction false} AcceptableSpelled(u: Unicode, text: string)
    ensures Acceptable(u, text) <==> IsAcceptable(u, text)
  {
    InheritsSpelled(text);
    BalancedSpelled(text);
    FirstWordsSpelled(u, text);
  }

  /** ValidatePolicy: accepts exactly the acceptable policies, and names a defect of any other one. */
  method ValidatePolicy(u: Unicode, text: string) returns (v: Verdict)
    ensures v == Accepted <==> Acceptable(u, text)
    ensures v == Accepted <==> IsAcceptable(u, text)
    ensures v == Empty <==> Blank(u, text)
    ensures v == NullByte <==> !Blank(u, text) && '\0' in text
    ensures !Blank(u, text) && '\0' !in text ==>
              if InheritsAllowed(text) then ScanRefusalHolds(u, text, v) else InheritRefusalHolds(text, v)
  {
    AcceptableSpelled(u, text);
    if Blank(u, text) {
      return Empty;
    }
    if '\0' in text {
      return NullByte;
    }
    v := ValidateBlockInherits(text);
    if v == Accepted {
      v := Scan(u, text);
    }
  }

  // ---------------------------------------------------------------- wrapping

  /** `strings.TrimSpace`. */
  function TrimSpace(u: Unicode, s: string): string
    decreases |s|
  {
    if s != "" && u.space(s[0]) then TrimSpace(u, s[1..])
    else if s != "" && u.space(s[|s| - 1]) then TrimSpace(u, s[..|s| - 1])
    else s
  }

  /** `strings.ReplaceAll` of a line end by a line end and four spaces. */
  function Indent(s: string): string {
    if s == "" then ""
    else
      var k := |s| - 1;
      Indent(s[..k]) + if s[k] == '\n' then "\n    " else [s[k]]
  }

  /** wrapPolicy: the policy inside a block of the profile's name. */
  function Wrap(u: Unicode, name: string, policy: string): string {
    "(block " + name + "\n    " + TrimSpace(u, Indent(TrimSpace(u, policy))) + "\n)"
  }

  predicate ParenFree(s: string) {
    forall i | 0 <= i < |s| :: !IsParen(s[i])
  }

  lemma {:induction false} DepthConcat(a: string, b: string)
    ensures Depth(a + b) == Depth(a) + Depth(b)
    decreases |b|
  {
    if b == "" {
      assert a + b == a;
    } else {
      var k := |b| - 1;
      assert (a + b)[..|a| + k] == a + b[..k];
      DepthConcat(a, b[..k]);
    }
  }

  lemma {:induction false} ParenFreeDepth(s: string)
    requires ParenFree(s)
    ensures Depth(s) == 0
    decreases |s|
  {
    if s != "" {
      ParenFreeDepth(s[..|s| - 1]);
    }
  }

  lemma {:induction false} ParenFreeBalanced(s: string)
    requires ParenFree(s)
    ensures Balanced(s)
  {
    forall k | 0 <= k <= |s|
      ensures Depth(s[..k]) >= 0
    {
      ParenFreeDepth(s[..k]);
    }
    ParenFreeDepth(s);
  }

  lemma {:induction false} BalancedConcat(a: string, b: string)
    requires Balanced(a) && Balanced(b)
    ensures Balanced(a + b)
  {
    DepthConcat(a, b);
    forall k | 0 <= k <= |a + b|
      ensures Depth((a + b)[..k]) >= 0
    {
      if k <= |a| {
        assert (a + b)[..k] == a[..k];
      } else {
        assert (a + b)[..k] == a + b[..k - |a|];
        DepthConcat(a, b[..k - |a|]);
      }
    }
  }

  /** Balanced text stays balanced without its first or last character, if that is no parenthesis. */
  lemma {:induction false} BalancedSlice(s: string)
    requires Balanced(s) && s != ""
    ensures !IsParen(s[0]) ==> Balanced(s[1..])
    ensures !IsParen(s[|s| - 1]) ==> Balanced(s[..|s| - 1])
  {
    if !IsParen(s[0]) {
      assert s == [s[0]] + s[1..];
      DepthConcat([s[0]], s[1..]);
      ParenFreeDepth([s[0]]);
      forall k | 0 <= k <= |s[1..]|
        ensures Depth(s[1..][..k]) >= 0
      {
        assert s[..k + 1] == [s[0]] + s[1..][..k];
        DepthConcat([s[0]], s[1..][..k]);
      }
    }
    if !IsParen(s[|s| - 1]) {
      var t := s[..|s| - 1];
      forall k | 0 <= k <= |t|
        ensures Depth(t[..k]) >= 0
      {
        assert t[..k] == s[..k];
      }
    }
  }

  lemma {:induction false} TrimKeepsBalance(u: Unicode, s: string)
    requires Balanced(s) && !u.space('(') && !u.space(')')
    ensures Balanced(TrimSpace(u, s))
    decreases |s|
  {
    if s != "" {
      BalancedSlice(s);
      if u.space(s[0]) {
        TrimKeepsBalance(u, s[1..]);
      } else if u.space(s[|s| - 1]) {
        TrimKeepsBalance(u, s[..|s| - 1]);
      }
    }
  }

  lemma {:induction false} IndentKeepsDepth(s: string)
    requires NeverNegative(s)
    ensures NeverNegative(Indent(s)) && Depth(Indent(s)) == Depth(s)
    decreases |s|
  {
    if s != "" {
      var k := |s| - 1;
      var head, piece := Indent(s[..k]), if s[k] == '\n' then "\n    " else [s[k]];
      forall j | 0 <= j <= k
        ensures Depth(s[..k][..j]) >= 0
      {
        assert s[..k][..j] == s[..j];
      }
      IndentKeepsDepth(s[..k]);
      PieceDepth(s[k], piece);
      assert s[..|s|] == s;
      AppendedPiece(head, piece);
    }
  }

  /** A piece that stays above the depth it starts at cannot go below zero. */
  lemma {:induction false} AppendedPiece(head: string, piece: string)
    requires NeverNegative(head) && forall j | 0 <= j <= |piece| :: Depth(head) + Depth(piece[..j]) >= 0
    ensures NeverNegative(head + piece) && Depth(head + piece) == Depth(head) + Depth(piece)
  {
    DepthConcat(head, piece);
    forall j | 0 <= j <= |head + piece|
      ensures Depth((head + piece)[..j]) >= 0
    {
      if j <= |head| {
        assert (head + piece)[..j] == head[..j];
      } else {
        assert (head + piece)[..j] == head + piece[..j - |head|];
        DepthConcat(head, piece[..j - |head|]);
      }
    }
  }

  lemma {:induction false} PieceDepth(c: char, piece: string)
    requires piece == if c == '\n' then "\n    " else [c]
    ensures Depth(piece) == Delta(c)
    ensures forall j | 0 < j <= |piece| :: Depth(piece[..j]) == Delta(c)
  {
    if c == '\n' {
      ParenFreeBalanced(piece);
      forall j | 0 < j <= |piece|
        ensures Depth(piece[..j]) == 0
      {
        ParenFreeDepth(piece[..j]);
      }
    } else {
      assert [c][..0] == "";
      assert Depth([c]) == Delta(c);
      assert piece[..1] == piece;
    }
  }

  /**
   Counted as characters, the opening parenthesis of the block is matched by the
   very last character of the wrapped text and by no earlier one.
   */
  lemma {:induction false} WrappedBlockClosesLast(u: Unicode, name: string, policy: string)
    requires Balanced(policy) && ParenFree(name) && !u.space('(') && !u.space(')')
    ensures var w := Wrap(u, name, policy);
            && w[0] == '(' && w[|w| - 1] == ')' && Depth(w) == 0
            && forall k | 0 < k < |w| :: Depth(w[..k]) >= 1
  {
    var head, tail := "block " + name + "\n    ", "\n";
    var inner := TrimSpace(u, Indent(TrimSpace(u, policy)));
    TrimKeepsBalance(u, policy);
    IndentKeepsDepth(TrimSpace(u, policy));
    TrimKeepsBalance(u, Indent(TrimSpace(u, policy)));
    ParenFreeBalanced(head);
    ParenFreeBalanced(tail);
    BalancedConcat(head, inner);
    BalancedConcat(head + inner, tail);
    Enclose(head + inner + tail);
    assert Wrap(u, name, policy) == "(" + (head + inner + tail) + ")";
  }

  /** One more pair of parentheses around balanced text: the first matches only the last. */
  lemma {:induction false} Enclose(s: string)
    requires Balanced(s)
    ensures var w := "(" + s + ")";
            Depth(w) == 0 && forall k | 0 < k < |w| :: Depth(w[..k]) >= 1
  {
    var w := "(" + s + ")";
    OneParen();
    DepthConcat("(", s);
    DepthConcat("(" + s, ")");
    forall k | 0 < k < |w|
      ensures Depth(w[..k]) >= 1
    {
      assert w[..k] == "(" + s[..k - 1];
      DepthConcat("(", s[..k - 1]);
    }
  }

  lemma {:induction false} OneParen()
    ensures Depth("(") == 1 && Depth(")") == -1
  {
    assert "("[..0] == "" && ")"[..0] == "";
  }

  // ---------------------------------------------------------------- the wrapped text

  /** The text without white space. */
  ghost function Squeezed(u: Unicode, s: string): string {
    if s == "" then "" else Squeezed(u, s[..|s| - 1]) + if u.space(s[|s| - 1]) then "" else [s[|s| - 1]]
  }

  lemma {:induction false} SqueezedConcat(u: Unicode, a: string, b: string)
    ensures Squeezed(u, a + b) == Squeezed(u, a) + Squeezed(u, b)
    decreases |b|
  {
    if b == "" {
      assert a + b == a;
    } else {
      var k := |b| - 1;
      assert (a + b)[..|a + b| - 1] == a + b[..k];
      SqueezedConcat(u, a, b[..k]);
    }
  }

  lemma {:induction false} TrimSqueezed(u: Unicode, s: string)
    ensures Squeezed(u, TrimSpace(u, s)) == Squeezed(u, s)
    decreases |s|
  {
    if s != "" && u.space(s[0]) {
      TrimSqueezed(u, s[1..]);
      assert s == [s[0]] + s[1..] && [s[0]][..0] == "";
      SqueezedConcat(u, [s[0]], s[1..]);
    } else if s != "" && u.space(s[|s| - 1]) {
      TrimSqueezed(u, s[..|s| - 1]);
    }
  }

  lemma {:induction false} SpacesSqueezed(u: Unicode, s: string)
    requires forall c | c in s :: u.space(c)
    ensures Squeezed(u, s) == ""
    decreases |s|
  {
    if s != "" {
      SpacesSqueezed(u, s[..|s| - 1]);
    }
  }

  lemma {:induction false} IndentSqueezed(u: Unicode, s: string)
    requires u.space(' ') && u.space('\n')
    ensures Squeezed(u, Indent(s)) == Squeezed(u, s)
    decreases |s|
  {
    if s != "" {
      var k := |s| - 1;
      IndentSqueezed(u, s[..k]);
      SqueezedConcat(u, Indent(s[..k]), if s[k] == '\n' then "\n    " else [s[k]]);
      if s[k] == '\n' {
        SpacesSqueezed(u, "\n    ");
      } else {
        assert [s[k]][..0] == "";
      }
    }
  }

  /** Wrapping changes no more than white space: the block holds the whole policy. */
  lemma {:induction false} WrapKeepsText(u: Unicode, name: string, policy: string)
    requires u.space(' ') && u.space('\n')
    ensures exists inner :: Wrap(u, name, policy) == "(block " + name + "\n    " + inner + "\n)"
                            && Squeezed(u, inner) == Squeezed(u, policy)
  {
    var inner := TrimSpace(u, Indent(TrimSpace(u, policy)));
    TrimSqueezed(u, policy);
    IndentSqueezed(u, TrimSpace(u, policy));
    TrimSqueezed(u, Indent(TrimSpace(u, policy)));
    assert Wrap(u, name, policy) == "(block " + name + "\n    " + inner + "\n)";
  }
}
