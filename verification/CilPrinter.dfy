/**
 A SelinuxProfile, the denylists that apply to it, and the CIL text it is
 printed as.
 */
module CilPrinter {
  import opened Ordering
  import opened CilReader

  const SELF := "@self"
  const SYSTEM_CONTAINER := "container"

  const DENIED_TYPES: set<string> := {"kernel_t", "kmem_t", "security_t", "shadow_t"}
  const DENIED_CLASSES: set<string> := {"capability", "capability2", "security", "system"}
  const DENIED_PERMISSIONS: set<string> := {
    "load_policy", "mac_admin", "mounton", "relabelto", "relabelfrom", "setbool", "setenforce", "setsecparam"
  }

  /** The allow rules: for every type and object class, a list of permissions. */
  type Allow = map<string, map<string, seq<string>>>

  datatype Profile = Profile(name: string, permissive: bool, allow: Allow)

  datatype Options = Options(
    deniedTypes: seq<string>, deniedClasses: seq<string>, deniedPermissions: seq<string>,
    allowedTypes: seq<string>, allowedClasses: seq<string>, allowedPermissions: seq<string>)

  datatype Denied = Denied(types: set<string>, classes: set<string>, permissions: set<string>)

  datatype Error = BadProfileName | BadInherit(name: string) | BadRule(ttype: string, class_: string)

  datatype Result = Ok(text: string) | Err(error: Error)

  /** `^[a-zA-Z][-a-zA-Z0-9_]*$`. */
  predicate IsBlockName(s: string) {
    s != "" && IsLetter(s[0]) && forall i | 0 <= i < |s| :: IsIdentifierChar(s[i]) && s[i] != '.'
  }

  /** How a pod refers to the profile, and what `@self` stands for. */
  function Usage(name: string): string {
    name + ".process"
  }

  // ---------------------------------------------------------------- denylists

  ghost function DeniedBy(o: Options): Denied {
    Denied(
      DENIED_TYPES - Elements(o.allowedTypes) + Elements(o.deniedTypes),
      DENIED_CLASSES - Elements(o.allowedClasses) + Elements(o.deniedClasses),
      DENIED_PERMISSIONS - Elements(o.allowedPermissions) + Elements(o.deniedPermissions))
  }

  /** validateSemanticRule succeeds: identifiers first, then the exact-string denylists. */
  predicate ValidRule(d: Denied, ttype: string, class_: string, perms: seq<string>) {
    && (ttype == SELF || IsIdentifier(ttype))
    && IsIdentifier(class_)
    && (forall i | 0 <= i < |perms| :: IsIdentifier(perms[i]))
    && ttype !in d.types
    && class_ !in d.classes
    && (forall i | 0 <= i < |perms| :: perms[i] !in d.permissions)
  }

  // ---------------------------------------------------------------- printing

  function Join(words: seq<string>): string {
    if |words| == 0 then ""
    else if |words| == 1 then words[0]
    else words[0] + " " + Join(words[1..])
  }

  function StatementText(keyword: string, argument: string): string {
    "(" + keyword + " " + (argument + ")\n")
  }

  function StartText(name: string): string {
    "(" + BLOCK + " " + (name + "\n")
  }

  function InheritLine(i: string): string {
    StatementText(BLOCKINHERIT, i)
  }

  const ALLOW_HEAD := "(" + ALLOW + " " + (PROCESS + " ")

  function FinalType(name: string, ttype: string): string {
    if ttype == SELF then Usage(name) else ttype
  }

  function AllowLine(name: string, ttype: string, class_: string, perms: seq<string>): string {
    ALLOW_HEAD + (FinalType(name, ttype) + " ( ") + (class_ + " ( ")
    + Join(SortCompact(StringLe, perms)) + " )))\n"
  }

  function InheritLines(inherits: seq<string>): string {
    if inherits == [] then "" else InheritLines(inherits[..|inherits| - 1]) + InheritLine(inherits[|inherits| - 1])
  }

  function PermissiveText(permissive: bool): string {
    if permissive then StatementText(TYPEPERMISSIVE, PROCESS) else ""
  }

  function ClassLines(name: string, ttype: string, classes: seq<string>, m: map<string, seq<string>>): string
    requires forall c | c in classes :: c in m
  {
    if classes == [] then ""
    else
      var k := |classes| - 1;
      ClassLines(name, ttype, classes[..k], m) + AllowLine(name, ttype, classes[k], m[classes[k]])
  }

  ghost function TypeLines(name: string, types: seq<string>, allow: Allow): string
    requires forall t | t in types :: t in allow
  {
    if types == [] then ""
    else
      var k := |types| - 1;
      TypeLines(name, types[..k], allow)
      + ClassLines(name, types[k], SortedList(allow[types[k]].Keys), allow[types[k]])
  }

  /** Only a profile without inherited profiles inherits the system container itself. */
  function Inherits(system: seq<string>, profiles: seq<string>): seq<string> {
    (if profiles == [] then [SYSTEM_CONTAINER] else []) + OtherThanContainer(system) + profiles
  }

  function OtherThanContainer(system: seq<string>): seq<string> {
    if system == [] then []
    else
      var k := |system| - 1;
      if system[k] == SYSTEM_CONTAINER then OtherThanContainer(system[..k])
      else OtherThanContainer(system[..k]) + [system[k]]
  }

  ghost function CilText(system: seq<string>, profiles: seq<string>, p: Profile): string {
    StartText(p.name) + BodyText(system, profiles, p) + ")\n"
  }

  ghost function BodyText(system: seq<string>, profiles: seq<string>, p: Profile): string {
    InheritLines(Inherits(system, profiles)) + PermissiveText(p.permissive)
    + TypeLines(p.name, SortedList(p.allow.Keys), p.allow)
  }

  /** What decides whether a profile can be translated. */
  ghost predicate Translatable(system: seq<string>, profiles: seq<string>, p: Profile, o: Options) {
    && IsBlockName(p.name)
    && (forall i | i in system :: IsIdentifier(i))
    && (forall i | i in profiles :: IsIdentifier(i))
    && RulesValid(p.allow, DeniedBy(o))
  }

  ghost predicate RulesValid(allow: Allow, d: Denied) {
    forall t, c | t in allow && c in allow[t] :: ValidRule(d, t, c, allow[t][c])
  }
}
