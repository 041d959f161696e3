/**
  The two JavaScript string methods the airport search is built on:
  `String.prototype.toLowerCase`, restricted to the ASCII letters, and
  `String.prototype.includes`, together with the substring relation that
  `includes` decides.
 */
module JsString {

  predicate IsUpper(c: char)
  {
    'A' <= c <= 'Z'
  }

  /** One character of `toLowerCase`: A-Z move to a-z, everything else is kept. */
  function LowerChar(c: char): char
  {
    if IsUpper(c) then (c as int + 32) as char else c
  }

  /** `s.toLowerCase()` over ASCII. */
  function ToLower(s: string): (r: string)
    ensures |r| == |s|
    ensures forall i :: 0 <= i < |r| ==> !IsUpper(r[i])
    ensures forall i :: 0 <= i < |s| && !IsUpper(s[i]) ==> r[i] == s[i]
    ensures forall i :: 0 <= i < |s| && IsUpper(s[i]) ==> r[i] as int == s[i] as int + 32
  {
    seq(|s|, i requires 0 <= i < |s| => LowerChar(s[i]))
  }

  /** Lowering twice is lowering once. */
  lemma ToLowerIdempotent(s: string)
    ensures ToLower(ToLower(s)) == ToLower(s)
  {
  }

  /** Lowering commutes with taking a slice. */
  lemma ToLowerSlice(s: string, i: nat, j: nat)
    requires i <= j <= |s|
    ensures ToLower(s)[i..j] == ToLower(s[i..j])
  {
  }

  /** `t` sits in `s` starting at position `i`. */
  ghost predicate OccursAt(s: string, t: string, i: nat)
  {
    i + |t| <= |s| && s[i..i + |t|] == t
  }

  /** `t` is a substring of `s`. */
  ghost predicate Contains(s: string, t: string)
  {
    exists i: nat :: OccursAt(s, t, i)
  }

  /** When `t` does not start `s`, it occurs in `s` exactly when it occurs in `s` without its first character. */
  lemma ContainsStep(s: string, t: string)
    requires |s| > 0 && !(|t| <= |s| && s[..|t|] == t)
    ensures Contains(s, t) <==> Contains(s[1..], t)
  {
    forall i: nat | OccursAt(s[1..], t, i)
      ensures OccursAt(s, t, i + 1)
    {
      assert s[1..][i..i + |t|] == s[i + 1..i + 1 + |t|];
    }
    forall i: nat | OccursAt(s, t, i)
      ensures i > 0 && OccursAt(s[1..], t, i - 1)
    {
      assert s[1..][i - 1..i - 1 + |t|] == s[i..i + |t|];
    }
  }

  /**
    `s.includes(t)`: tries the start positions of `s` from left to right, and
    answers true exactly when `t` is a substring of `s`.
   */
  function Includes(s: string, t: string): (b: bool)
    ensures b <==> Contains(s, t)
    decreases |s|
  {
    if |t| <= |s| && s[..|t|] == t then
      assert OccursAt(s, t, 0);
      true
    else if |s| == 0 then
      false
    else
      ContainsStep(s, t);
      Includes(s[1..], t)
  }

  /** A case-sensitive occurrence is also a case-insensitive one. */
  lemma ContainsLowered(s: string, t: string)
    requires Contains(s, t)
    ensures Contains(ToLower(s), ToLower(t))
  {
    var i: nat :| OccursAt(s, t, i);
    ToLowerSlice(s, i, i + |t|);
    assert OccursAt(ToLower(s), ToLower(t), i);
  }

  /** The empty string is a substring of every string. */
  lemma ContainsEmpty(s: string)
    ensures Contains(s, "")
  {
    assert OccursAt(s, "", 0);
  }
}
