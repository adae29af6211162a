/**
 OCI platforms: how they are printed, parsed, matched and used as layer names.
 */
module Platforms {

  import opened Wrappers

  datatype Platform = Platform(os: string, architecture: string, variant: string, version: string)

  // ---------------------------------------------------------------- matching

  /** The default variant made explicit or omitted, as container runtimes do it. */
  function NormalizeVariant(architecture: string, variant: string): string {
    if architecture == "arm64" && variant == "v8" then ""
    else if architecture == "arm" && variant == "" then "v7"
    else if architecture == "amd64" && variant == "v1" then ""
    else variant
  }

  predicate Matches(have: Platform, want: Platform) {
    && have.os == want.os
    && have.architecture == want.architecture
    && NormalizeVariant(have.architecture, have.variant) == NormalizeVariant(want.architecture, want.variant)
    && have.version == want.version
  }

  /** Both variants are among the ones an architecture does not tell apart. */
  predicate SameByDefault(architecture: string, a: string, b: string) {
    || (architecture == "arm64" && a in {"", "v8"} && b in {"", "v8"})
    || (architecture == "arm" && a in {"", "v7"} && b in {"", "v7"})
    || (architecture == "amd64" && a in {"", "v1"} && b in {"", "v1"})
  }

  /** Which platforms match: equal ones, and those that differ in a default variant only. */
  lemma {:induction false} MatchesIff(a: Platform, b: Platform)
    ensures Matches(a, b) <==>
            && a.os == b.os && a.architecture == b.architecture && a.version == b.version
            && (a.variant == b.variant || SameByDefault(a.architecture, a.variant, b.variant))
  {
  }

  // ---------------------------------------------------------------- layer names

  const EXT_YAML := ".yaml"
  const DEFAULT_YAML := "profile.yaml"
  const DEFAULT_JSON := "profile.json"

  function Dashed(part: string): string {
    if part == "" then "" else "-" + part
  }

  /** profileName: the layer name for a platform. */
  function ProfileName(platform: Option<Platform>): string {
    match platform
    case None => "profile" + EXT_YAML
    case Some(p) =>
      "profile" + (Dashed(p.os) + Dashed(p.architecture) + Dashed(p.variant) + Dashed(p.version)) + EXT_YAML
  }

  const EMPTY := Platform("", "", "", "")

  lemma {:induction false} Regroup(a: string, b: string, c: string, d: string, e: string, f: string)
    ensures a + (b + c + d + e) + f == a + b + c + d + e + f
  {
    assert a + (b + c + d + e) == a + b + c + d + e;
  }

  /** The layer name spelled out: the parts that are not empty, each behind a dash. */
  lemma {:induction false} NameSpelled(p: Platform)
    ensures ProfileName(None) == "profile.yaml"
    ensures ProfileName(Some(p))
         == "profile"
            + (if p.os == "" then "" else "-" + p.os)
            + (if p.architecture == "" then "" else "-" + p.architecture)
            + (if p.variant == "" then "" else "-" + p.variant)
            + (if p.version == "" then "" else "-" + p.version)
            + ".yaml"
  {
    Regroup("profile", Dashed(p.os), Dashed(p.architecture), Dashed(p.variant), Dashed(p.version), EXT_YAML);
  }

  /** Only a platform without any part is named like a layer bound to none. */
  lemma {:induction false} DefaultNameIsEmpty(p: Platform)
    ensures ProfileName(Some(p)) == DEFAULT_YAML <==> p == EMPTY
  {
    var middle := Dashed(p.os) + Dashed(p.architecture) + Dashed(p.variant) + Dashed(p.version);
    assert ProfileName(Some(p)) == "profile" + middle + EXT_YAML;
    assert |DEFAULT_YAML| == |"profile"| + |EXT_YAML|;
    assert |ProfileName(Some(p))| == |DEFAULT_YAML| + |middle|;
    if p == EMPTY {
      assert middle == "";
      assert "profile" + "" + EXT_YAML == DEFAULT_YAML;
    }
  }

  // ---------------------------------------------------------------- printing

  function Slashed(part: string): string {
    if part == "" then "" else "/" + part
  }

  function VersionSuffix(version: string): string {
    if version == "" then "" else ":" + version
  }

  /** platformToString. */
  function ToString(p: Platform): string {
    p.os + Slashed(p.architecture) + Slashed(p.variant) + VersionSuffix(p.version)
  }

  // ---------------------------------------------------------------- parsing

  /** `strings.Cut` at the first separator; without one everything is before it. */
  function Before(s: string, sep: char): string {
    if s == "" || s[0] == sep then "" else [s[0]] + Before(s[1..], sep)
  }

  function After(s: string, sep: char): string {
    if s == "" then "" else if s[0] == sep then s[1..] else After(s[1..], sep)
  }

  /** `strings.Split`. */
  function Split(s: string, sep: char): (parts: seq<string>)
    ensures |parts| >= 1
    decreases |s|
  {
    if sep !in s then [s] else [Before(s, sep)] + (AfterShorter(s, sep); Split(After(s, sep), sep))
  }

  lemma {:induction false} AfterShorter(s: string, sep: char)
    requires sep in s
    ensures |After(s, sep)| < |s|
  {
    if s[0] != sep {
      assert s == [s[0]] + s[1..];
      AfterShorter(s[1..], sep);
    }
  }

  /** ParsePlatform on a machine of the given operating system and architecture. */
  function Parse(goos: string, goarch: string, input: string): Option<Platform> {
    if input == "" then Some(Platform(goos, goarch, "", ""))
    else FromParts(goarch, Split(Before(input, ':'), '/'), After(input, ':'))
  }

  function FromParts(goarch: string, parts: seq<string>, version: string): Option<Platform>
    requires |parts| >= 1
  {
    if |parts| > 3 then None
    else
      var architecture := if |parts| == 1 then goarch else parts[1];
      var variant := if |parts| == 3 then parts[2] else "";
      if parts[0] == "" || architecture == "" then None
      else Some(Platform(parts[0], architecture, variant, version))
  }

  method ParsePlatform(goos: string, goarch: string, input: string) returns (r: Option<Platform>)
    ensures r == Parse(goos, goarch, input)
  {
    var res := EMPTY;
    if input == "" {
      res := res.(architecture := goarch, os := goos);
      return Some(res);
    }
    res := res.(version := After(input, ':'));
    var parts := Split(Before(input, ':'), '/');
    if |parts| == 3 {
      res := res.(variant := parts[2]);
    }
    if |parts| == 2 || |parts| == 3 {
      res := res.(architecture := parts[1]);
    } else if |parts| == 1 {
      res := res.(architecture := goarch);
    } else {
      return None;
    }
    res := res.(os := parts[0]);
    if res.os == "" || res.architecture == "" {
      return None;
    }
    return Some(res);
  }

  lemma {:induction false} CutAt(a: string, sep: char, b: string)
    requires sep !in a
    ensures Before(a, sep) == a && After(a, sep) == ""
    ensures Before(a + [sep] + b, sep) == a && After(a + [sep] + b, sep) == b
    decreases |a|
  {
    if a == "" {
      assert (a + [sep] + b)[1..] == b;
    } else {
      assert a == [a[0]] + a[1..];
      assert (a + [sep] + b)[1..] == a[1..] + [sep] + b;
      CutAt(a[1..], sep, b);
    }
  }

  lemma {:induction false} SplitFirst(a: string, sep: char, b: string)
    requires sep !in a
    ensures Split(a + [sep] + b, sep) == [a] + Split(b, sep)
  {
    CutAt(a, sep, b);
    assert (a + [sep] + b)[|a|] == sep;
  }

  lemma {:induction false} BeforeClean(s: string, sep: char, x: char)
    ensures sep !in Before(s, sep)
    ensures x !in s ==> x !in Before(s, sep) && x !in After(s, sep)
  {
    if s != "" && s[0] != sep {
      assert s == [s[0]] + s[1..];
      BeforeClean(s[1..], sep, x);
    } else if s != "" {
      assert s == [s[0]] + s[1..];
    }
  }

  lemma {:induction false} SplitClean(s: string, sep: char, x: char)
    requires x !in s
    ensures forall i | 0 <= i < |Split(s, sep)| :: sep !in Split(s, sep)[i] && x !in Split(s, sep)[i]
    decreases |s|
  {
    if sep in s {
      BeforeClean(s, sep, x);
      AfterShorter(s, sep);
      SplitClean(After(s, sep), sep, x);
    }
  }

  predicate Clean(part: string) {
    '/' !in part && ':' !in part
  }

  /** What the textual form of a platform can carry. */
  predicate Printable(p: Platform) {
    p.os != "" && p.architecture != "" && Clean(p.os) && Clean(p.architecture) && Clean(p.variant)
  }

  /** The printed platform without its version. */
  function Parts(p: Platform): string {
    p.os + Slashed(p.architecture) + Slashed(p.variant)
  }

  lemma {:induction false} PartsText(p: Platform)
    requires Printable(p)
    ensures ':' !in Parts(p)
    ensures Parts(p) == p.os + ['/'] + if p.variant == "" then p.architecture
                                       else p.architecture + ['/'] + p.variant
  {
  }

  lemma {:induction false} PartsSplit(p: Platform)
    requires Printable(p)
    ensures Split(Parts(p), '/') == if p.variant == "" then [p.os, p.architecture]
                                    else [p.os, p.architecture, p.variant]
  {
    PartsText(p);
    if p.variant == "" {
      SplitFirst(p.os, '/', p.architecture);
    } else {
      SplitFirst(p.os, '/', p.architecture + ['/'] + p.variant);
      SplitFirst(p.architecture, '/', p.variant);
    }
  }

  /** The printed platform spelled out. */
  lemma {:induction false} PrintedSpelled(p: Platform)
    ensures ToString(p)
         == p.os + (if p.architecture == "" then "" else "/" + p.architecture)
            + (if p.variant == "" then "" else "/" + p.variant)
            + (if p.version == "" then "" else ":" + p.version)
  {
  }

  lemma {:induction false} PrintedText(p: Platform)
    ensures ToString(p) == if p.version == "" then Parts(p) else Parts(p) + [':'] + p.version
  {
  }

  lemma {:induction false} PrintableParses(goos: string, goarch: string, p: Platform)
    requires Printable(p)
    ensures Parse(goos, goarch, ToString(p)) == Some(p)
  {
    var parts, text := Parts(p), ToString(p);
    PartsText(p);
    PrintedText(p);
    assert Before(text, ':') == parts && After(text, ':') == p.version by {
      CutAt(parts, ':', p.version);
    }
    PartsSplit(p);
  }

  /** Whatever is parsed can be printed. */
  lemma {:induction false} ParsedIsPrintable(goos: string, goarch: string, input: string)
    requires goos != "" && goarch != "" && Clean(goos) && Clean(goarch) && Parse(goos, goarch, input).Some?
    ensures Printable(Parse(goos, goarch, input).value)
  {
    if input != "" {
      var before := Before(input, ':');
      BeforeClean(input, ':', ':');
      SplitClean(before, '/', ':');
    }
  }

  /**
   Parsing undoes printing exactly for platforms with an operating system and an
   architecture whose parts hold neither separator, with any version.
   */
  lemma {:induction false} ParseUndoesPrint(goos: string, goarch: string, p: Platform)
    requires goos != "" && goarch != "" && Clean(goos) && Clean(goarch)
    ensures Parse(goos, goarch, ToString(p)) == Some(p) <==> Printable(p)
  {
    if Printable(p) {
      PrintableParses(goos, goarch, p);
    } else if Parse(goos, goarch, ToString(p)) == Some(p) {
      ParsedIsPrintable(goos, goarch, ToString(p));
    }
  }

  lemma {:induction false} ParsesOne(goos: string, goarch: string, os: string)
    requires Clean(os) && os != ""
    ensures Parse(goos, goarch, os) == if goarch == "" then None else Some(Platform(os, goarch, "", ""))
  {
    CutAt(os, ':', "");
  }

  lemma {:induction false} ParsesTwo(goos: string, goarch: string, os: string, arch: string)
    requires Clean(os) && Clean(arch) && os != "" && arch != ""
    ensures Parse(goos, goarch, os + "/" + arch) == Some(Platform(os, arch, "", ""))
  {
    CutAt(os + "/" + arch, ':', "");
    SplitFirst(os, '/', arch);
  }

  lemma {:induction false} SplitThree(a: string, b: string, c: string)
    requires '/' !in a && '/' !in b
    ensures Split(a + "/" + b + "/" + c, '/') == [a, b] + Split(c, '/')
  {
    assert a + "/" + b + "/" + c == a + ['/'] + (b + ['/'] + c);
    SplitFirst(a, '/', b + ['/'] + c);
    SplitFirst(b, '/', c);
  }

  lemma {:induction false} ParsesThree(goos: string, goarch: string, os: string, arch: string, variant: string,
                                       version: string)
    requires Clean(os) && Clean(arch) && Clean(variant) && os != "" && arch != ""
    ensures Parse(goos, goarch, os + "/" + arch + "/" + variant) == Some(Platform(os, arch, variant, ""))
    ensures Parse(goos, goarch, os + "/" + arch + "/" + variant + ":" + version)
         == Some(Platform(os, arch, variant, version))
  {
    var text := os + "/" + arch + "/" + variant;
    CutAt(text, ':', version);
    SplitThree(os, arch, variant);
  }

  lemma {:induction false} BeforeKeeps(a: string, b: string, sep: char)
    requires sep !in a
    ensures Before(a + b, sep) == a + Before(b, sep)
    decreases |a|
  {
    if a == "" {
      assert a + b == b;
    } else {
      assert a == [a[0]] + a[1..];
      assert (a + b)[1..] == a[1..] + b;
      BeforeKeeps(a[1..], b, sep);
    }
  }

  lemma {:induction false} RefusesFour(goos: string, goarch: string, os: string, arch: string, variant: string,
                                       rest: string)
    requires Clean(os) && Clean(arch) && Clean(variant)
    ensures Parse(goos, goarch, os + "/" + arch + "/" + variant + "/" + rest) == None
  {
    var text := os + "/" + arch + "/" + variant + "/" + rest;
    var front := os + "/" + arch + "/" + variant + "/";
    BeforeKeeps(front, rest, ':');
    var cut := Before(rest, ':');
    assert front + cut == os + "/" + arch + "/" + (variant + ['/'] + cut);
    SplitThree(os, arch, variant + ['/'] + cut);
    SplitFirst(variant, '/', cut);
  }

  /** What the command line accepts, spelled out; parts that are missing default to this machine's. */
  lemma {:induction false} ParseSpelled(goos: string, goarch: string, os: string, arch: string, variant: string,
                                        version: string)
    requires Clean(os) && Clean(arch) && Clean(variant) && os != "" && arch != ""
    ensures Parse(goos, goarch, "") == Some(Platform(goos, goarch, "", ""))
    ensures Parse(goos, goarch, os) == if goarch == "" then None else Some(Platform(os, goarch, "", ""))
    ensures Parse(goos, goarch, os + "/" + arch) == Some(Platform(os, arch, "", ""))
    ensures Parse(goos, goarch, os + "/" + arch + "/" + variant) == Some(Platform(os, arch, variant, ""))
    ensures Parse(goos, goarch, os + "/" + arch + "/" + variant + ":" + version)
         == Some(Platform(os, arch, variant, version))
    ensures Parse(goos, goarch, os + "/" + arch + "/" + variant + "/" + version) == None
  {
    ParsesOne(goos, goarch, os);
    ParsesTwo(goos, goarch, os, arch);
    ParsesThree(goos, goarch, os, arch, variant, version);
    RefusesFour(goos, goarch, os, arch, variant, version);
  }
}
