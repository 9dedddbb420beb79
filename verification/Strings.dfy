/** Searching text for a character. */
module Strings {

  /** Position of the first `c`, or the length (`npos`). */
  function Find(s: string, c: char): (i: nat)
    ensures i <= |s| && (i < |s| ==> s[i] == c) && forall j :: 0 <= j < i ==> s[j] != c
  {
    if s == "" || s[0] == c then 0 else 1 + Find(s[1..], c)
  }

  lemma {:induction false} FindSeparator(a: string, c: char, b: string)
    requires c !in a
    ensures Find(a + ([c] + b), c) == |a|
    ensures (a + ([c] + b))[..|a|] == a && (a + ([c] + b))[|a| + 1..] == b
  {
    if a == "" {
      assert a + ([c] + b) == [c] + b;
    } else {
      assert a[0] in a && forall x :: x in a[1..] ==> x in a;
      assert (a + ([c] + b))[1..] == a[1..] + ([c] + b);
      FindSeparator(a[1..], c, b);
    }
  }

  lemma {:induction false} FindNone(a: string, c: char)
    requires c !in a
    ensures Find(a, c) == |a|
  {
    if a != "" {
      assert a[0] in a && forall x :: x in a[1..] ==> x in a;
      FindNone(a[1..], c);
    }
  }
}
