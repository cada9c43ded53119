/** The functions of Go's strings package that several components use. */
module Strings {

  /** Lower-casing one character, as far as the result is ASCII: besides A-Z, two other letters have
      an ASCII lower case, the dotted capital I and the Kelvin sign. */
  function Lower(c: char): char {
    if 'A' <= c <= 'Z' then c - 'A' + 'a'
    else if c == '\U{130}' then 'i'
    else if c == '\U{212A}' then 'k'
    else c
  }

  function ToLower(s: string): string {
    seq(|s|, i requires 0 <= i < |s| => Lower(s[i]))
  }

  const CAPITALS := "ABCDEFGHIJKLMNOPQRSTUVWXYZ"
  const SMALL_LETTERS := "abcdefghijklmnopqrstuvwxyz"

  lemma SmallLettersInOrder(c: char)
    ensures c in SMALL_LETTERS <==> 'a' <= c <= 'z'
  {
    if 'a' <= c <= 'z' {
      assert SMALL_LETTERS[c as int - 'a' as int] == c;
    }
  }

  lemma CapitalsInOrder(c: char)
    ensures c in CAPITALS <==> 'A' <= c <= 'Z'
  {
    if 'A' <= c <= 'Z' {
      assert CAPITALS[c as int - 'A' as int] == c;
    }
  }

  /** The 26 letters in order, two exceptions, and nothing else changes. */
  lemma LowerLetterByLetter(c: char)
    ensures forall i :: 0 <= i < 26 ==> Lower(CAPITALS[i]) == SMALL_LETTERS[i]
    ensures Lower('\U{130}') == 'i' && Lower('\U{212A}') == 'k'
    ensures c !in CAPITALS && c != '\U{130}' && c != '\U{212A}' ==> Lower(c) == c
  {
    CapitalsInOrder(c);
  }

  /** `part` occurs in `s` at position `i`. */
  predicate StandsAt(s: string, part: string, i: nat) {
    i + |part| <= |s| && s[i..i + |part|] == part
  }

  predicate Contains(s: string, part: string) {
    exists i :: 0 <= i <= |s| && StandsAt(s, part, i)
  }

  function TrimLeft(s: string, cutset: string): string {
    if s != "" && s[0] in cutset then TrimLeft(s[1..], cutset) else s
  }

  function TrimRight(s: string, cutset: string): string {
    if s != "" && s[|s| - 1] in cutset then TrimRight(s[..|s| - 1], cutset) else s
  }

  function Trim(s: string, cutset: string): string {
    TrimRight(TrimLeft(s, cutset), cutset)
  }

  /** What is left is the longest suffix that does not start with a character of the cutset. */
  lemma {:induction false} TrimLeftShape(s: string, cutset: string)
    ensures var t := TrimLeft(s, cutset);
            && |t| <= |s| && t == s[|s| - |t|..]
            && (forall i :: 0 <= i < |s| - |t| ==> s[i] in cutset)
            && (t != "" ==> t[0] !in cutset)
            && (s != "" ==> (t == s <==> s[0] !in cutset))
  {
    if s == "" || s[0] !in cutset {
    } else {
      TrimLeftShape(s[1..], cutset);
      assert s == [s[0]] + s[1..];
    }
  }

  lemma {:induction false} TrimRightShape(s: string, cutset: string)
    ensures var t := TrimRight(s, cutset);
            && t <= s
            && (forall i :: |t| <= i < |s| ==> s[i] in cutset)
            && (t != "" ==> t[|t| - 1] !in cutset)
            && (s != "" ==> (t == s <==> s[|s| - 1] !in cutset))
  {
    if s == "" || s[|s| - 1] !in cutset {
    } else {
      TrimRightShape(s[..|s| - 1], cutset);
    }
  }

  lemma NothingToTrim(s: string, cutset: string)
    requires s != "" && s[0] !in cutset && s[|s| - 1] !in cutset
    ensures Trim(s, cutset) == s
  {
    TrimLeftShape(s, cutset);
    TrimRightShape(s, cutset);
  }

  /** Trimming cuts `lo` characters on the left and everything from `hi` on, and all of that is of the cutset. */
  lemma TrimShape(s: string, cutset: string) returns (lo: nat, hi: nat)
    ensures lo <= hi <= |s| && Trim(s, cutset) == s[lo..hi]
    ensures forall k :: 0 <= k < lo || hi <= k < |s| ==> s[k] in cutset
    ensures lo < hi ==> s[lo] !in cutset && s[hi - 1] !in cutset
  {
    var left := TrimLeft(s, cutset);
    TrimLeftShape(s, cutset);
    TrimRightShape(left, cutset);
    lo := |s| - |left|;
    hi := lo + |Trim(s, cutset)|;
    assert forall k :: lo <= k < |s| ==> s[k] == left[k - lo];
  }
}
