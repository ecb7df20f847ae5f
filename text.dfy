/** The string operations the services and validators rely on: Java's ASCII
    case mapping, `equalsIgnoreCase`, `contains`, and the blank test of
    Jakarta Validation's @NotBlank (which trims every char up to U+0020). */
module Text {

  /** `Character.toUpperCase` restricted to ASCII letters. */
  function UpperChar(c: char): (r: char)
    ensures 'a' <= c <= 'z' ==> 'A' <= r <= 'Z'
    ensures !('a' <= c <= 'z') ==> r == c
  {
    if 'a' <= c <= 'z' then (c as int - 32) as char else c
  }

  /** `Character.toLowerCase` restricted to ASCII letters. */
  function LowerChar(c: char): (r: char)
    ensures 'A' <= c <= 'Z' ==> 'a' <= r <= 'z'
    ensures !('A' <= c <= 'Z') ==> r == c
  {
    if 'A' <= c <= 'Z' then (c as int + 32) as char else c
  }

  function ToUpper(s: string): (r: string)
    ensures |r| == |s|
    ensures forall i :: 0 <= i < |s| ==> r[i] == UpperChar(s[i])
  {
    if s == [] then [] else [UpperChar(s[0])] + ToUpper(s[1..])
  }

  function ToLower(s: string): (r: string)
    ensures |r| == |s|
    ensures forall i :: 0 <= i < |s| ==> r[i] == LowerChar(s[i])
  {
    if s == [] then [] else [LowerChar(s[0])] + ToLower(s[1..])
  }

  /** Two chars match ignoring case as `String.equalsIgnoreCase` compares them:
      equal, equal after upper-casing, or equal after lower-casing the upper case. */
  predicate CharEqualsIgnoreCase(a: char, b: char) {
    a == b || UpperChar(a) == UpperChar(b) || LowerChar(UpperChar(a)) == LowerChar(UpperChar(b))
  }

  /** `String.equalsIgnoreCase`: same length and char-by-char match ignoring case. */
  predicate EqualsIgnoreCase(a: string, b: string) {
    |a| == |b| && forall i :: 0 <= i < |a| ==> CharEqualsIgnoreCase(a[i], b[i])
  }

  lemma CharEqualsIgnoreCaseIffLower(a: char, b: char)
    ensures CharEqualsIgnoreCase(a, b) <==> LowerChar(a) == LowerChar(b)
  {
  }

  /** Comparing ignoring case is the same as comparing the lower-cased strings. */
  lemma EqualsIgnoreCaseIffLowerEqual(a: string, b: string)
    ensures EqualsIgnoreCase(a, b) <==> ToLower(a) == ToLower(b)
  {
    if EqualsIgnoreCase(a, b) {
      forall i | 0 <= i < |a| ensures ToLower(a)[i] == ToLower(b)[i] {
        CharEqualsIgnoreCaseIffLower(a[i], b[i]);
      }
    }
    if ToLower(a) == ToLower(b) {
      forall i | 0 <= i < |a| ensures CharEqualsIgnoreCase(a[i], b[i]) {
        assert ToLower(a)[i] == ToLower(b)[i];
        CharEqualsIgnoreCaseIffLower(a[i], b[i]);
      }
    }
  }

  /** No lower-case ASCII letter in `s`, as in every enum constant's name. */
  predicate NoLowerCase(s: string) {
    forall i :: 0 <= i < |s| ==> !('a' <= s[i] <= 'z')
  }

  /** Upper-casing `s` yields a name with no lower-case letters exactly when
      `s` equals that name ignoring case. */
  lemma ToUpperIsNameIffEqualsIgnoreCase(s: string, name: string)
    requires NoLowerCase(name)
    ensures ToUpper(s) == name <==> EqualsIgnoreCase(s, name)
  {
    if EqualsIgnoreCase(s, name) {
      forall i | 0 <= i < |s| ensures ToUpper(s)[i] == name[i] {
        assert CharEqualsIgnoreCase(s[i], name[i]);
      }
    }
    if ToUpper(s) == name {
      forall i | 0 <= i < |s| ensures CharEqualsIgnoreCase(s[i], name[i]) {
        assert UpperChar(s[i]) == name[i] == UpperChar(name[i]);
      }
    }
  }

  /** `sub` occurs in `s` at index `i`. */
  predicate OccursAt(s: string, sub: string, i: int) {
    0 <= i && i + |sub| <= |s| && s[i..i + |sub|] == sub
  }

  /** `String.contains`, searched from the front. */
  function Contains(s: string, sub: string): (r: bool)
    ensures r <==> exists i :: OccursAt(s, sub, i)
    decreases |s|
  {
    if |sub| <= |s| && s[..|sub|] == sub then
      assert OccursAt(s, sub, 0);
      true
    else if |sub| > |s| then
      false
    else
      var rest := Contains(s[1..], sub);
      if rest then
        var i :| OccursAt(s[1..], sub, i);
        assert OccursAt(s, sub, i + 1);
        true
      else
        assert forall i :: OccursAt(s, sub, i) ==> i > 0 && OccursAt(s[1..], sub, i - 1);
        false
  }

  /** `sub` occurs in `s` at index `i`, ignoring case. */
  predicate OccursAtIgnoreCase(s: string, sub: string, i: int) {
    0 <= i && i + |sub| <= |s| && EqualsIgnoreCase(s[i..i + |sub|], sub)
  }

  /** `sub` occurs in `s` at some position, ignoring case. */
  predicate ContainsIgnoreCase(s: string, sub: string) {
    exists i | 0 <= i <= |s| :: OccursAtIgnoreCase(s, sub, i)
  }

  lemma OccursAtLower(s: string, sub: string, i: int)
    ensures OccursAt(ToLower(s), ToLower(sub), i) <==> OccursAtIgnoreCase(s, sub, i)
  {
    if 0 <= i && i + |sub| <= |s| {
      assert ToLower(s[i..i + |sub|]) == ToLower(s)[i..i + |sub|];
      EqualsIgnoreCaseIffLowerEqual(s[i..i + |sub|], sub);
    }
  }

  /** `s.toLowerCase().contains(sub.toLowerCase())` is a case-insensitive
      substring test. */
  lemma ContainsLowerIsContainsIgnoreCase(s: string, sub: string)
    ensures Contains(ToLower(s), ToLower(sub)) <==> ContainsIgnoreCase(s, sub)
  {
    if Contains(ToLower(s), ToLower(sub)) {
      var i :| OccursAt(ToLower(s), ToLower(sub), i);
      OccursAtLower(s, sub, i);
    }
    if ContainsIgnoreCase(s, sub) {
      var i :| OccursAtIgnoreCase(s, sub, i);
      OccursAtLower(s, sub, i);
    }
  }

  // ---------------------------------------------------------------- numbers

  /** The number a string of decimal digits spells. */
  function DigitsValue(s: string): int {
    if s == [] then 0 else DigitsValue(s[..|s| - 1]) * 10 + (s[|s| - 1] as int - '0' as int)
  }

  /** The decimal text of a natural number, as Java's string concatenation
      prints a `Long` and a JavaScript template literal prints a count: at
      least one digit, no leading zero, and the digits spell the number. */
  function DecimalText(n: nat): (s: string)
    ensures |s| >= 1 && forall i :: 0 <= i < |s| ==> '0' <= s[i] <= '9'
    ensures DigitsValue(s) == n
    ensures |s| > 1 ==> s[0] != '0'
  {
    if n < 10 then [('0' as int + n) as char]
    else
      var prefix := DecimalText(n / 10);
      var s := prefix + [('0' as int + n % 10) as char];
      assert s[..|s| - 1] == prefix;
      s
  }

  /** @NotBlank: null, or nothing left after `String.trim()`, which strips
      every char at or below U+0020 from both ends. */
  predicate IsBlank(s: string) {
    forall i :: 0 <= i < |s| ==> s[i] <= ' '
  }
}
