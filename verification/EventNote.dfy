/**
 Truncating the note of an event without splitting a UTF-8 sequence. Validity
 is the grammar of section 4 of RFC 3629.
 */
module EventNote {

  type Byte = b: int | 0 <= b < 256

  const MAX_NOTE_LENGTH := 1024
  const SUFFIX: seq<Byte> := ['.' as int, '.' as int, '.' as int]

  predicate Tail(b: Byte) {
    0x80 <= b <= 0xBF
  }

  /** `utf8.RuneStart`. */
  predicate RuneStart(b: Byte) {
    !Tail(b)
  }

  predicate Tails(s: seq<Byte>, from: nat, to: nat) {
    to <= |s| && forall i | from <= i < to :: Tail(s[i])
  }

  /** The length of the character the text starts with, zero if there is none. */
  function CharLength(s: seq<Byte>): nat {
    if s == [] then 0
    else if s[0] <= 0x7F then 1
    else if 0xC2 <= s[0] <= 0xDF && Tails(s, 1, 2) then 2
    else if 0xE0 <= s[0] <= 0xEF && Tails(s, 1, 3)
         && (s[0] == 0xE0 ==> s[1] >= 0xA0) && (s[0] == 0xED ==> s[1] <= 0x9F) then 3
    else if 0xF0 <= s[0] <= 0xF4 && Tails(s, 1, 4)
         && (s[0] == 0xF0 ==> s[1] >= 0x90) && (s[0] == 0xF4 ==> s[1] <= 0x8F) then 4
    else 0
  }

  predicate Valid(s: seq<Byte>)
    decreases |s|
  {
    s == [] || (CharLength(s) > 0 && Valid(s[CharLength(s)..]))
  }

  /** The bytes of a code point: the table of section 3 of RFC 3629. */
  function Encoded(c: nat): seq<int> {
    if c < 0x80 then [c]
    else if c < 0x800 then [0xC0 + c / 64, 0x80 + c % 64]
    else if c < 0x10000 then [0xE0 + c / 64 / 64, 0x80 + c / 64 % 64, 0x80 + c % 64]
    else [0xF0 + c / 64 / 64 / 64, 0x80 + c / 64 / 64 % 64, 0x80 + c / 64 % 64, 0x80 + c % 64]
  }

  /** The code points that have an encoding: no half of a surrogate pair does. */
  predicate IsScalar(c: nat) {
    c < 0xD800 || 0xE000 <= c < 0x110000
  }

  ghost predicate StartsWith(s: seq<Byte>, c: nat) {
    IsScalar(c) && |Encoded(c)| <= |s| && forall i | 0 <= i < |Encoded(c)| :: s[i] == Encoded(c)[i]
  }

  lemma {:induction false} LastDigit(a: nat, b: nat)
    requires b < 64
    ensures (a * 64 + b) / 64 == a && (a * 64 + b) % 64 == b
  {
  }

  lemma {:induction false} TwoBytes(s: seq<Byte>, x: nat, y: nat)
    requires |s| >= 2 && s[0] == 0xC0 + x && s[1] == 0x80 + y && 2 <= x < 32 && y < 64
    ensures StartsWith(s, x * 64 + y)
  {
    LastDigit(x, y);
  }

  lemma {:induction false} ThreeBytes(s: seq<Byte>, x: nat, y: nat, z: nat)
    requires |s| >= 3 && s[0] == 0xE0 + x && s[1] == 0x80 + y && s[2] == 0x80 + z && x < 16 && y < 64 && z < 64
    requires (x == 0 ==> y >= 32) && (x == 13 ==> y < 32)
    ensures StartsWith(s, (x * 64 + y) * 64 + z)
  {
    LastDigit(x * 64 + y, z);
    LastDigit(x, y);
  }

  lemma {:induction false} FourBytes(s: seq<Byte>, x: nat, y: nat, z: nat, w: nat)
    requires |s| >= 4 && s[0] == 0xF0 + x && s[1] == 0x80 + y && s[2] == 0x80 + z && s[3] == 0x80 + w
    requires x < 5 && y < 64 && z < 64 && w < 64
    requires (x == 0 ==> y >= 16) && (x == 4 ==> y < 16)
    ensures StartsWith(s, ((x * 64 + y) * 64 + z) * 64 + w)
  {
    LastDigit((x * 64 + y) * 64 + z, w);
    LastDigit(x * 64 + y, z);
    LastDigit(x, y);
  }

  /** The encoding of a code point is what the grammar takes for a character. */
  lemma {:induction false} EncodedIsChar(s: seq<Byte>, c: nat)
    requires StartsWith(s, c)
    ensures CharLength(s) == |Encoded(c)|
  {
    var r := Encoded(c);
    assert s[0] == r[0];
    if |r| > 1 {
      assert s[1] == r[1];
    }
    if |r| > 2 {
      assert s[2] == r[2];
    }
    if |r| > 3 {
      assert s[3] == r[3];
    }
  }

  /** What the grammar takes for a character is a code point in its encoding, and nothing else is. */
  lemma {:induction false} CharIff(s: seq<Byte>)
    ensures CharLength(s) > 0 <==> exists c :: StartsWith(s, c)
  {
    if CharLength(s) == 1 {
      assert StartsWith(s, s[0]);
    } else if CharLength(s) == 2 {
      TwoBytes(s, s[0] - 0xC0, s[1] - 0x80);
    } else if CharLength(s) == 3 {
      ThreeBytes(s, s[0] - 0xE0, s[1] - 0x80, s[2] - 0x80);
    } else if CharLength(s) == 4 {
      FourBytes(s, s[0] - 0xF0, s[1] - 0x80, s[2] - 0x80, s[3] - 0x80);
    }
    if c :| StartsWith(s, c) {
      EncodedIsChar(s, c);
    }
  }

  lemma {:induction false} CharShape(s: seq<Byte>)
    requires CharLength(s) > 0
    ensures CharLength(s) <= 4 && CharLength(s) <= |s| && RuneStart(s[0])
    ensures forall i | 1 <= i < CharLength(s) :: Tail(s[i])
  {
  }

  /** Only the bytes of a character decide its length. */
  lemma {:induction false} CharLengthLocal(s: seq<Byte>, t: seq<Byte>)
    requires CharLength(s) > 0 && CharLength(s) <= |t|
    requires forall i | 0 <= i < CharLength(s) :: t[i] == s[i]
    ensures CharLength(t) == CharLength(s)
  {
  }

  lemma {:induction false} ValidConcat(a: seq<Byte>, b: seq<Byte>)
    requires Valid(a) && Valid(b)
    ensures Valid(a + b)
    decreases |a|
  {
    if a == [] {
      assert a + b == b;
    } else {
      var n := CharLength(a);
      CharShape(a);
      CharLengthLocal(a, a + b);
      assert (a + b)[n..] == a[n..] + b;
      ValidConcat(a[n..], b);
    }
  }

  /** A prefix of valid text that ends where a character starts is valid. */
  lemma {:induction false} PrefixValid(s: seq<Byte>, cut: nat)
    requires Valid(s) && cut < |s| && RuneStart(s[cut])
    ensures Valid(s[..cut])
    decreases |s|
  {
    if cut > 0 {
      var n := CharLength(s);
      CharShape(s);
      assert n <= cut;
      var rest := s[n..];
      if cut == n {
        assert s[..cut][n..] == [];
      } else {
        PrefixValid(rest, cut - n);
        assert s[..cut][n..] == rest[..cut - n];
      }
      CharLengthLocal(s, s[..cut]);
    }
  }

  /** A character starts at one of any four successive positions. */
  lemma {:induction false} StartNearby(s: seq<Byte>, i: nat)
    requires Valid(s) && i < |s|
    ensures exists j | 0 <= j <= i < j + 4 :: RuneStart(s[j])
    decreases |s|
  {
    var n := CharLength(s);
    CharShape(s);
    if i < n {
      assert RuneStart(s[0]) && i < 0 + 4;
    } else {
      var rest := s[n..];
      StartNearby(rest, i - n);
      var j :| 0 <= j <= i - n < j + 4 && RuneStart(rest[j]);
      assert RuneStart(s[j + n]);
    }
  }

  lemma {:induction false} SuffixValid()
    ensures Valid(SUFFIX)
  {
    var dot := ['.' as int];
    assert dot[1..] == [] && Valid(dot);
    ValidConcat(dot, dot);
    ValidConcat(dot + dot, dot);
    assert SUFFIX == dot + dot + dot;
  }

  /** The last position with room for the suffix that starts a character, or the beginning. */
  predicate IsCut(note: seq<Byte>, cut: nat)
    requires |note| > 1024
  {
    && cut <= 1021 && (cut == 0 || !(0x80 <= note[cut] <= 0xBF))
    && forall i | cut < i <= 1021 :: 0x80 <= note[i] <= 0xBF
  }

  /**
   TruncateEventNote. A note that fits is unchanged. Any other one is cut at the
   last position that leaves room for the suffix and starts a character; a valid
   note stays valid and loses at most three bytes more than it has to.
   */
  method TruncateEventNote(note: seq<Byte>) returns (r: seq<Byte>)
    ensures |r| <= 1024
    ensures |note| <= 1024 ==> r == note
    ensures |note| > 1024 ==>
              exists cut: nat | IsCut(note, cut) ::
                r == note[..cut] + [0x2E, 0x2E, 0x2E] && (Valid(note) ==> Valid(note[..cut]))
    ensures Valid(note) ==> Valid(r)
    ensures Valid(note) && |note| > 1024 ==> |r| >= 1021
  {
    if |note| <= MAX_NOTE_LENGTH {
      return note;
    }
    var cut := MAX_NOTE_LENGTH - |SUFFIX|;
    while cut > 0 && !RuneStart(note[cut])
      invariant 0 <= cut <= MAX_NOTE_LENGTH - |SUFFIX|
      invariant forall i | cut < i <= MAX_NOTE_LENGTH - |SUFFIX| :: !RuneStart(note[i])
    {
      cut := cut - 1;
    }
    assert IsCut(note, cut);
    r := note[..cut] + SUFFIX;
    if Valid(note) {
      StartNearby(note, MAX_NOTE_LENGTH - |SUFFIX|);
      if cut > 0 {
        PrefixValid(note, cut);
      }
      SuffixValid();
      ValidConcat(note[..cut], SUFFIX);
    }
  }
}
