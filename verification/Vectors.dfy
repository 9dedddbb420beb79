/** The vector idioms the chat server relies on: a linear search by identifier, and the
    remove-then-erase pair in its one-iterator form. */
module Vectors {

  ghost predicate DistinctKeys<T>(s: seq<T>, key: T -> nat) {
    forall i, j :: 0 <= i < j < |s| ==> key(s[i]) != key(s[j])
  }

  predicate HasKey<T>(s: seq<T>, key: T -> nat, k: nat) {
    exists i :: 0 <= i < |s| && key(s[i]) == k
  }

  ghost function Keys<T>(s: seq<T>, key: T -> nat): (r: set<nat>)
    ensures forall k :: k in r <==> HasKey(s, key, k)
  {
    set i | 0 <= i < |s| :: key(s[i])
  }

  /** What `std::remove_if` leaves in front of the iterator it returns: the elements whose
      key differs from `k`, in order. */
  function Kept<T>(s: seq<T>, key: T -> nat, k: nat): seq<T> {
    if s == [] then []
    else if key(s[0]) == k then Kept(s[1..], key, k)
    else [s[0]] + Kept(s[1..], key, k)
  }

  lemma {:induction false} KeptMembers<T>(s: seq<T>, key: T -> nat, k: nat)
    ensures forall i :: 0 <= i < |Kept(s, key, k)| ==> Kept(s, key, k)[i] in s && key(Kept(s, key, k)[i]) != k
    ensures forall i :: 0 <= i < |s| && key(s[i]) != k ==> s[i] in Kept(s, key, k)
    ensures !HasKey(s, key, k) <==> Kept(s, key, k) == s
  {
    if s != [] {
      KeptMembers(s[1..], key, k);
      assert s == [s[0]] + s[1..];
      if !HasKey(s, key, k) {
        assert key(s[0]) != k;
        assert forall i :: 0 <= i < |s[1..]| ==> s[1..][i] == s[i + 1];
      }
      if Kept(s, key, k) == s {
        forall i | 0 <= i < |s| ensures key(s[i]) != k {
          assert s[i] in s;
        }
      }
    }
  }

  lemma TailHasKey<T>(s: seq<T>, key: T -> nat, k: nat)
    requires s != []
    ensures HasKey(s, key, k) <==> key(s[0]) == k || HasKey(s[1..], key, k)
  {
    var rest := s[1..];
    if HasKey(s, key, k) && key(s[0]) != k {
      var i :| 0 <= i < |s| && key(s[i]) == k;
      assert key(rest[i - 1]) == k;
    }
    if HasKey(rest, key, k) {
      var i :| 0 <= i < |rest| && key(rest[i]) == k;
      assert key(s[i + 1]) == k;
    }
  }

  lemma ConsDistinct<T>(x: T, rest: seq<T>, key: T -> nat)
    ensures DistinctKeys([x] + rest, key) <==> DistinctKeys(rest, key) && !HasKey(rest, key, key(x))
  {
    var s := [x] + rest;
    assert forall i :: 0 <= i < |rest| ==> s[i + 1] == rest[i];
    if DistinctKeys(s, key) {
      forall i | 0 <= i < |rest| ensures key(rest[i]) != key(x) {
        assert key(s[0]) != key(s[i + 1]);
      }
    }
  }

  lemma {:induction false} KeptDistinct<T>(s: seq<T>, key: T -> nat, k: nat)
    requires DistinctKeys(s, key)
    ensures DistinctKeys(Kept(s, key, k), key)
    ensures |Kept(s, key, k)| == if HasKey(s, key, k) then |s| - 1 else |s|
  {
    if s != [] {
      var rest := s[1..];
      assert s == [s[0]] + rest;
      ConsDistinct(s[0], rest, key);
      TailHasKey(s, key, k);
      KeptDistinct(rest, key, k);
      KeptKeys(rest, key, k);
      ConsDistinct(s[0], Kept(rest, key, k), key);
    }
  }

  /** `v.erase(std::remove_if(...))` with a single iterator: one slot is given up and whatever
      `remove_if` left behind it stays.  Erasing needs a matching element: without one the
      iterator is `end()`. */
  function EraseOne<T>(s: seq<T>, key: T -> nat, k: nat): seq<T>
    requires |Kept(s, key, k)| < |s|
  {
    var kept := Kept(s, key, k);
    kept + s[|kept| + 1..]
  }

  /** The iterator can be erased exactly when a match exists. */
  lemma EraseDefined<T>(s: seq<T>, key: T -> nat, k: nat)
    ensures |Kept(s, key, k)| < |s| <==> HasKey(s, key, k)
  {
    KeptLength(s, key, k);
  }

  lemma {:induction false} KeptLength<T>(s: seq<T>, key: T -> nat, k: nat)
    ensures |Kept(s, key, k)| <= |s|
    ensures |Kept(s, key, k)| < |s| <==> HasKey(s, key, k)
  {
    if s != [] {
      KeptLength(s[1..], key, k);
      TailHasKey(s, key, k);
    }
  }

  /** Among distinct keys the one-iterator erase is exact removal. */
  lemma EraseIsRemoval<T>(s: seq<T>, key: T -> nat, k: nat)
    requires DistinctKeys(s, key) && HasKey(s, key, k)
    ensures |Kept(s, key, k)| < |s| && EraseOne(s, key, k) == Kept(s, key, k)
    ensures DistinctKeys(Kept(s, key, k), key)
    ensures Keys(Kept(s, key, k), key) == Keys(s, key) - {k}
  {
    KeptDistinct(s, key, k);
    KeptKeys(s, key, k);
  }

  /** In general it removes exactly the matches precisely when there is one of them. */
  lemma EraseIsRemovalIff<T>(s: seq<T>, key: T -> nat, k: nat)
    requires |Kept(s, key, k)| < |s|
    ensures EraseOne(s, key, k) == Kept(s, key, k) <==> |Kept(s, key, k)| == |s| - 1
  {
    var kept := Kept(s, key, k);
    if |kept| < |s| - 1 {
      assert |EraseOne(s, key, k)| == |s| - 1;
    }
  }

  lemma {:induction false} KeptKeys<T>(s: seq<T>, key: T -> nat, k: nat)
    ensures forall x :: HasKey(Kept(s, key, k), key, x) <==> HasKey(s, key, x) && x != k
    ensures Keys(Kept(s, key, k), key) == Keys(s, key) - {k}
  {
    if s != [] {
      var rest := s[1..];
      KeptKeys(rest, key, k);
      forall x ensures HasKey(Kept(s, key, k), key, x) <==> HasKey(s, key, x) && x != k {
        TailHasKey(s, key, x);
        if key(s[0]) != k {
          assert Kept(s, key, k)[1..] == Kept(rest, key, k);
          TailHasKey(Kept(s, key, k), key, x);
        }
      }
    }
  }

  lemma AppendKeys<T>(s: seq<T>, key: T -> nat, x: T)
    ensures Keys(s + [x], key) == Keys(s, key) + {key(x)}
    ensures DistinctKeys(s, key) && !HasKey(s, key, key(x)) ==> DistinctKeys(s + [x], key)
  {
    var t := s + [x];
    forall k ensures k in Keys(t, key) <==> k in Keys(s, key) + {key(x)} {
      if HasKey(s, key, k) {
        var i :| 0 <= i < |s| && key(s[i]) == k;
        assert key(t[i]) == k;
      }
      if k == key(x) {
        assert key(t[|s|]) == k;
      }
    }
  }

  lemma Regroup<T>(a: seq<T>, b: seq<T>, c: seq<T>)
    ensures a + b + c == a + (b + c)
  {
  }

  /** Places in a list of length `n`, from front to back and none twice. */
  ghost predicate Ascending(places: seq<nat>, n: nat) {
    (forall j :: 0 <= j < |places| ==> places[j] < n) && forall i, j :: 0 <= i < j < |places| ==> places[i] < places[j]
  }
}
