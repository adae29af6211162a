/**
 The finalizer a node daemon adds to a profile, and the one earlier releases
 added. SHA-256 is a parameter `hex`: a function from a name to the 64
 characters of its hex encoded digest.
 */
module FinalizerNames {

  const MAX_LABEL_LENGTH := 63
  const NODE_SUFFIX := "-deleted"
  const HASH_PREFIX_LENGTH := 16
  const NAME_ROOM := MAX_LABEL_LENGTH - |NODE_SUFFIX|
  const PARTIAL_FINALIZER := "spo.x-k8s.io/partial-profile-finalizer"

  datatype NameResult = Name(value: string) | NoRoomForHash

  ghost predicate IsDigest(hex: string -> string) {
    forall s :: |hex(s)| == 64
  }

  /** The prefix, a dash and as much of the digest of name as fits. */
  function HashedName(hex: string -> string, maxLen: int, prefix: string, name: string): NameResult {
    var useLen := maxLen - |prefix| - 1;
    if useLen < 1 then NoRoomForHash
    else
      var digest := hex(name);
      Name(prefix + "-" + digest[..if useLen < |digest| then useLen else |digest|])
  }

  /** A hashed name fills the room there is, up to the whole digest; there has to be room for one character of it. */
  lemma {:induction false} HashedSpelled(hex: string -> string, maxLen: int, prefix: string, name: string)
    requires IsDigest(hex)
    ensures HashedName(hex, maxLen, prefix, name) == NoRoomForHash <==> maxLen < |prefix| + 2
    ensures maxLen >= |prefix| + 2 ==>
              var size := if maxLen < |prefix| + 65 then maxLen else |prefix| + 65;
              HashedName(hex, maxLen, prefix, name) == Name(prefix + "-" + hex(name)[..size - |prefix| - 1])
  {
    assert |hex(name)| == 64;
  }

  predicate Fits(node: string) {
    |node| + |NODE_SUFFIX| <= MAX_LABEL_LENGTH
  }

  /** Empty for a node whose name fits: its finalizer never changed. */
  function LegacyFinalizer(node: string): string {
    if Fits(node) then "" else node[..NAME_ROOM] + NODE_SUFFIX
  }

  function NodeFinalizer(hex: string -> string, node: string): string {
    if Fits(node) then node + NODE_SUFFIX
    else
      match HashedName(hex, NAME_ROOM, node[..HASH_PREFIX_LENGTH], node)
      case NoRoomForHash => LegacyFinalizer(node)
      case Name(hashed) => hashed + NODE_SUFFIX
  }

  /** What a finalizer of the node carries in front of the suffix. */
  function Stem(hex: string -> string, node: string): string
    requires IsDigest(hex)
  {
    if Fits(node) then node
    else node[..HASH_PREFIX_LENGTH] + "-" + hex(node)[..NAME_ROOM - HASH_PREFIX_LENGTH - 1]
  }

  lemma {:induction false} AppendSuffix(a: string, b: string)
    ensures a + NODE_SUFFIX == b + NODE_SUFFIX <==> a == b
  {
    assert (a + NODE_SUFFIX)[..|a|] == a;
    assert (b + NODE_SUFFIX)[..|b|] == b;
  }

  /**
   Every finalizer fits a DNS label and ends in the suffix the manager knows
   node finalizers by; the fallback to the legacy name never applies.
   */
  lemma {:induction false} NodeFinalizerShape(hex: string -> string, node: string)
    requires IsDigest(hex)
    ensures NodeFinalizer(hex, node) == Stem(hex, node) + NODE_SUFFIX
    ensures |NodeFinalizer(hex, node)| <= MAX_LABEL_LENGTH
    ensures !Fits(node) ==> |NodeFinalizer(hex, node)| == |LegacyFinalizer(node)| == MAX_LABEL_LENGTH
    ensures LegacyFinalizer(node) == "" <==> Fits(node)
  {
  }

  /** The finalizers spelled out. */
  lemma {:induction false} NamesSpelled(hex: string -> string, node: string)
    requires IsDigest(hex)
    ensures |node| <= 55 ==> NodeFinalizer(hex, node) == node + "-deleted" && LegacyFinalizer(node) == ""
    ensures |node| > 55 ==>
              && NodeFinalizer(hex, node) == node[..16] + "-" + hex(node)[..38] + "-deleted"
              && LegacyFinalizer(node) == node[..55] + "-deleted"
  {
  }

  /** Equality of two digests cut to what a finalizer carries of them. */
  predicate DigestsCollide(hex: string -> string, n: string, m: string)
    requires IsDigest(hex)
  {
    hex(n)[..NAME_ROOM - HASH_PREFIX_LENGTH - 1] == hex(m)[..NAME_ROOM - HASH_PREFIX_LENGTH - 1]
  }

  /**
   Exactly when two different nodes end up with one finalizer: never if both
   names fit, and otherwise only through the 38 digest characters.
   */
  lemma {:induction false} SharedFinalizer(hex: string -> string, n: string, m: string)
    requires IsDigest(hex) && n != m
    ensures NodeFinalizer(hex, n) == NodeFinalizer(hex, m) <==>
            match (Fits(n), Fits(m))
            case (true, true) => false
            case (true, false) => n == Stem(hex, m)
            case (false, true) => m == Stem(hex, n)
            case (false, false) =>
              n[..HASH_PREFIX_LENGTH] == m[..HASH_PREFIX_LENGTH] && DigestsCollide(hex, n, m)
  {
    NodeFinalizerShape(hex, n);
    NodeFinalizerShape(hex, m);
    AppendSuffix(Stem(hex, n), Stem(hex, m));
    if !Fits(n) && !Fits(m) {
      StemParts(hex, n);
      StemParts(hex, m);
    }
  }

  lemma {:induction false} StemParts(hex: string -> string, n: string)
    requires IsDigest(hex) && !Fits(n)
    ensures Stem(hex, n)[..HASH_PREFIX_LENGTH] == n[..HASH_PREFIX_LENGTH]
    ensures Stem(hex, n)[HASH_PREFIX_LENGTH + 1..] == hex(n)[..NAME_ROOM - HASH_PREFIX_LENGTH - 1]
  {
  }

  /**
   Exactly when the finalizer of n is the legacy finalizer of m: the stem of n
   is the truncated name of m. For a name that fits this happens without any
   digest collision, when n is the 55 character prefix of m.
   */
  lemma {:induction false} LegacyCollision(hex: string -> string, n: string, m: string)
    requires IsDigest(hex)
    ensures LegacyFinalizer(m) != "" && NodeFinalizer(hex, n) == LegacyFinalizer(m) <==>
            !Fits(m) && Stem(hex, n) == m[..NAME_ROOM]
    ensures Fits(n) && !Fits(m) && n == m[..NAME_ROOM] ==>
            n != m && NodeFinalizer(hex, n) == LegacyFinalizer(m)
  {
    NodeFinalizerShape(hex, n);
    if !Fits(m) {
      AppendSuffix(Stem(hex, n), m[..NAME_ROOM]);
    }
  }
}
