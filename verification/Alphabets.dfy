/** The ASCII alphabets written out, and what ranges and case mean in terms of them. */
module Alphabets {

  const LOWER := "abcdefghijklmnopqrstuvwxyz"
  const UPPER := "ABCDEFGHIJKLMNOPQRSTUVWXYZ"
  const DIGITS := "0123456789"

  lemma {:induction false} LowerAt(i: nat)
    requires i < 26
    ensures |LOWER| == 26 && LOWER[i] as int == 'a' as int + i
  {
  }

  lemma {:induction false} UpperAt(i: nat)
    requires i < 26
    ensures |UPPER| == 26 && UPPER[i] as int == 'A' as int + i
  {
  }

  lemma {:induction false} DigitAt(i: nat)
    requires i < 10
    ensures |DIGITS| == 10 && DIGITS[i] as int == '0' as int + i
  {
  }

  lemma {:induction false} LowerIff(c: char)
    ensures c in LOWER <==> 'a' <= c <= 'z'
  {
    if 'a' <= c <= 'z' {
      LowerAt(c as int - 'a' as int);
    }
    if c in LOWER {
      var i :| 0 <= i < |LOWER| && LOWER[i] == c;
      LowerAt(i);
    }
  }

  lemma {:induction false} UpperIff(c: char)
    ensures c in UPPER <==> 'A' <= c <= 'Z'
  {
    if 'A' <= c <= 'Z' {
      UpperAt(c as int - 'A' as int);
    }
    if c in UPPER {
      var i :| 0 <= i < |UPPER| && UPPER[i] == c;
      UpperAt(i);
    }
  }

  lemma {:induction false} DigitIff(c: char)
    ensures c in DIGITS <==> '0' <= c <= '9'
  {
    if '0' <= c <= '9' {
      DigitAt(c as int - '0' as int);
    }
    if c in DIGITS {
      var i :| 0 <= i < |DIGITS| && DIGITS[i] == c;
      DigitAt(i);
    }
  }

  /** The capital of the letter. */
  predicate IsCapitalOf(c: char, letter: char) {
    exists i | 0 <= i < 26 :: i < |UPPER| && i < |LOWER| && UPPER[i] == c && LOWER[i] == letter
  }

  lemma {:induction false} CapitalIff(c: char, letter: char)
    ensures IsCapitalOf(c, letter) <==> 'A' <= c <= 'Z' && c as int + 32 == letter as int
  {
    if 'A' <= c <= 'Z' && c as int + 32 == letter as int {
      var i := c as int - 'A' as int;
      UpperAt(i);
      LowerAt(i);
      assert UPPER[i] == c && LOWER[i] == letter;
    }
    if IsCapitalOf(c, letter) {
      var i :| 0 <= i < 26 && i < |UPPER| && i < |LOWER| && UPPER[i] == c && LOWER[i] == letter;
      UpperAt(i);
      LowerAt(i);
    }
  }
}
