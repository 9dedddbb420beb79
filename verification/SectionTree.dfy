/** A test case as Catch sees it: a tree of sections in program order, its leaves, and the paths to them. */
module SectionTree {
  datatype Section = Section(name: string, subs: seq<Section>)

  datatype Event = Enter(name: string) | Leave(name: string)

  function Leaves(s: Section): (n: nat)
    ensures n >= 1
    decreases s, 1
  {
    if s.subs == [] then 1 else LeavesOf(s.subs)
  }

  function LeavesOf(subs: seq<Section>): (n: nat)
    ensures subs != [] ==> n >= 1
    decreases subs, 0
  {
    if subs == [] then 0 else Leaves(subs[0]) + LeavesOf(subs[1..])
  }

  /** The section names from `s` down to its `k`-th leaf in program order. */
  function PathTo(s: Section, k: nat): (p: seq<string>)
    requires k < Leaves(s)
    ensures p != [] && p[0] == s.name
    decreases s, 1
  {
    [s.name] + if s.subs == [] then [] else PathIn(s.subs, k)
  }

  function PathIn(subs: seq<Section>, k: nat): seq<string>
    requires k < LeavesOf(subs)
    decreases subs, 0
  {
    if k < Leaves(subs[0]) then PathTo(subs[0], k) else PathIn(subs[1..], k - Leaves(subs[0]))
  }

  /** Entering the sections of a path one inside the other, and leaving them again. */
  function Visit(path: seq<string>): seq<Event> {
    if path == [] then [] else [Enter(path[0])] + Visit(path[1..]) + [Leave(path[0])]
  }

  /** Siblings carry different names, at every level. */
  ghost predicate DistinctNames(s: Section)
    decreases s
  {
    && (forall i, j :: 0 <= i < j < |s.subs| ==> s.subs[i].name != s.subs[j].name)
    && forall i :: 0 <= i < |s.subs| ==> DistinctNames(s.subs[i])
  }

  /** A chain of nested sections from `s` to a section without sub-sections. */
  ghost predicate IsLeafPath(s: Section, p: seq<string>)
    decreases s
  {
    && p != [] && p[0] == s.name
    && if s.subs == [] then |p| == 1 else exists i :: 0 <= i < |s.subs| && IsLeafPath(s.subs[i], p[1..])
  }

  function Before(subs: seq<Section>, i: nat): nat
    requires i <= |subs|
  {
    LeavesOf(subs[..i])
  }

  lemma {:induction false} LeavesOfConcat(a: seq<Section>, b: seq<Section>)
    ensures LeavesOf(a + b) == LeavesOf(a) + LeavesOf(b)
  {
    if a == [] {
      assert a + b == b;
    } else {
      assert (a + b)[1..] == a[1..] + b;
      LeavesOfConcat(a[1..], b);
    }
  }

  lemma BeforeNext(subs: seq<Section>, i: nat)
    requires i < |subs|
    ensures Before(subs, i + 1) == Before(subs, i) + Leaves(subs[i])
  {
    assert subs[..i + 1] == subs[..i] + [subs[i]];
    LeavesOfConcat(subs[..i], [subs[i]]);
  }

  lemma BeforeAll(subs: seq<Section>)
    ensures Before(subs, 0) == 0 && Before(subs, |subs|) == LeavesOf(subs)
  {
    assert subs[..|subs|] == subs;
  }

  lemma {:induction false} BeforeMonotone(subs: seq<Section>, i: nat, j: nat)
    requires i <= j <= |subs|
    ensures Before(subs, i) <= Before(subs, j)
  {
    if i < j {
      BeforeMonotone(subs, i, j - 1);
      BeforeNext(subs, j - 1);
    }
  }

  /** How many of the first `k` leaves below `subs` belong to `subs[i]`. */
  function Share(subs: seq<Section>, i: nat, k: nat): (m: nat)
    requires i < |subs|
    ensures m <= Leaves(subs[i])
  {
    if k <= Before(subs, i) then 0
    else if k - Before(subs, i) >= Leaves(subs[i]) then Leaves(subs[i])
    else k - Before(subs, i)
  }

  /** The `k`-th path runs through the section the `k`-th leaf belongs to. */
  lemma {:induction false} PathInAt(subs: seq<Section>, i: nat, k: nat)
    requires i < |subs| && Before(subs, i) <= k < Before(subs, i) + Leaves(subs[i])
    ensures k < LeavesOf(subs) && PathIn(subs, k) == PathTo(subs[i], k - Before(subs, i))
  {
    BeforeNext(subs, i);
    BeforeMonotone(subs, i + 1, |subs|);
    BeforeAll(subs);
    if i > 0 {
      var rest := subs[1..];
      assert subs[..i] == [subs[0]] + rest[..i - 1];
      LeavesOfConcat([subs[0]], rest[..i - 1]);
      assert LeavesOf([subs[0]]) == Leaves(subs[0]);
      PathInAt(rest, i - 1, k - Leaves(subs[0]));
    }
  }

  lemma {:induction false} OwnerOfLeaf(subs: seq<Section>, k: nat) returns (i: nat)
    requires k < LeavesOf(subs)
    ensures i < |subs| && Before(subs, i) <= k < Before(subs, i) + Leaves(subs[i])
  {
    if k < Leaves(subs[0]) {
      i := 0;
    } else {
      var rest := subs[1..];
      var j := OwnerOfLeaf(rest, k - Leaves(subs[0]));
      i := j + 1;
      assert subs[..i] == [subs[0]] + rest[..j];
      LeavesOfConcat([subs[0]], rest[..j]);
      assert LeavesOf([subs[0]]) == Leaves(subs[0]);
    }
  }

  /** The enumerated paths are exactly the chains from the root to a leaf. */
  lemma PathsAreLeafPaths(s: Section, p: seq<string>)
    ensures IsLeafPath(s, p) <==> exists k :: 0 <= k < Leaves(s) && PathTo(s, k) == p
  {
    if IsLeafPath(s, p) { var k := LeafOf(s, p); }
    if k :| 0 <= k < Leaves(s) && PathTo(s, k) == p { LeavesHaveLeafPaths(s, k); }
  }

  lemma {:induction false} LeafOf(s: Section, p: seq<string>) returns (k: nat)
    requires IsLeafPath(s, p)
    ensures k < Leaves(s) && PathTo(s, k) == p
    decreases s
  {
    if s.subs == [] { return 0; }
    var i :| 0 <= i < |s.subs| && IsLeafPath(s.subs[i], p[1..]);
    var m := LeafOf(s.subs[i], p[1..]);
    k := Before(s.subs, i) + m;
    PathInAt(s.subs, i, k);
  }

  lemma {:induction false} LeavesHaveLeafPaths(s: Section, k: nat)
    requires k < Leaves(s)
    ensures IsLeafPath(s, PathTo(s, k))
    decreases s
  {
    if s.subs != [] {
      var i := OwnerOfLeaf(s.subs, k);
      PathInAt(s.subs, i, k);
      assert PathTo(s, k)[1..] == PathTo(s.subs[i], k - Before(s.subs, i));
      LeavesHaveLeafPaths(s.subs[i], k - Before(s.subs, i));
    }
  }

  /** No two leaves share a path when sibling names differ. */
  lemma {:induction false} PathsDistinct(s: Section, j: nat, k: nat)
    requires DistinctNames(s) && j < k < Leaves(s)
    ensures PathTo(s, j) != PathTo(s, k)
    decreases s
  {
    var a := OwnerOfLeaf(s.subs, j);
    var b := OwnerOfLeaf(s.subs, k);
    PathInAt(s.subs, a, j);
    PathInAt(s.subs, b, k);
    assert PathTo(s, j)[1..] == PathTo(s.subs[a], j - Before(s.subs, a));
    assert PathTo(s, k)[1..] == PathTo(s.subs[b], k - Before(s.subs, b));
    if a == b {
      PathsDistinct(s.subs[a], j - Before(s.subs, a), k - Before(s.subs, a));
    } else {
      assert s.subs[a].name != s.subs[b].name;
    }
  }

  /** A visit enters the sections of its path from the outermost one and leaves them in reverse order. */
  lemma {:induction false} VisitShape(p: seq<string>)
    ensures |Visit(p)| == 2 * |p|
    ensures forall i :: 0 <= i < |p| ==> Visit(p)[i] == Enter(p[i]) && Visit(p)[2 * |p| - 1 - i] == Leave(p[i])
  {
    if p != [] {
      VisitShape(p[1..]);
      var inner := Visit(p[1..]);
      assert Visit(p) == [Enter(p[0])] + inner + [Leave(p[0])];
    }
  }

  /** A visit determines its path. */
  lemma {:induction false} VisitInjective(p: seq<string>, q: seq<string>)
    requires Visit(p) == Visit(q)
    ensures p == q
  {
    if p != [] && q != [] {
      var vp, vq := Visit(p[1..]), Visit(q[1..]);
      assert Visit(p)[0] == Enter(p[0]) && Visit(q)[0] == Enter(q[0]);
      assert Visit(p)[1..|Visit(p)| - 1] == vp && Visit(q)[1..|Visit(q)| - 1] == vq;
      VisitInjective(p[1..], q[1..]);
      assert p == [p[0]] + p[1..] && q == [q[0]] + q[1..];
    }
  }
}
