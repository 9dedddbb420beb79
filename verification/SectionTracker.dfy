/** Catch's section tracker: a tree of trackers grown while a test case is run again and again,
    one leaf section per cycle.  Trackers live in one sequence in order of creation and refer to
    each other by position. */
module SectionTracker {
  import opened SectionTree

  datatype RunState = NotStarted | Executing | CompletedCycle

  datatype CycleState = Idle | Running | RunningChildren | NeedsAnotherRun | CompletedSuccessfully | Failed

  /** The root has parent -1. */
  datatype Tracker = Tracker(name: string, parent: int, children: seq<nat>, runState: CycleState)

  type Trackers = seq<Tracker>

  predicate IsComplete(t: Tracker) {
    t.runState == CompletedSuccessfully || t.runState == Failed
  }

  predicate IsOpen(t: Tracker) {
    t.runState != Idle && !IsComplete(t)
  }

  /** Parents come first. */
  ghost predicate Wf(ts: Trackers) {
    && (forall y :: 0 <= y < |ts| ==> -1 <= ts[y].parent < y)
    && forall y, i :: 0 <= y < |ts| && 0 <= i < |ts[y].children| ==> ts[y].children[i] < |ts|
  }

  /** `y` is `x` or one of its descendants. */
  ghost predicate Below(ts: Trackers, y: nat, x: nat)
    requires Wf(ts) && y < |ts|
    decreases y
  {
    y == x || (ts[y].parent >= 0 && Below(ts, ts[y].parent, x))
  }

  /** Trackers keep their names and parents, and none goes away. */
  ghost predicate Extends(before: Trackers, after: Trackers) {
    && |before| <= |after|
    && forall y :: 0 <= y < |before| ==> after[y].name == before[y].name && after[y].parent == before[y].parent
  }

  /** Nothing but `x` and what is below it has changed. */
  ghost predicate OnlyBelow(before: Trackers, after: Trackers, x: nat) {
    && Wf(before) && Wf(after) && Extends(before, after)
    && (forall y :: 0 <= y < |before| && !Below(before, y, x) ==> after[y] == before[y])
    && forall y :: |before| <= y < |after| ==> Below(after, y, x)
  }

  lemma {:induction false} BelowKept(before: Trackers, after: Trackers, y: nat, x: nat)
    requires Wf(before) && Wf(after) && Extends(before, after) && y < |before|
    ensures Below(after, y, x) <==> Below(before, y, x)
    decreases y
  {
    if y != x && before[y].parent >= 0 { BelowKept(before, after, before[y].parent, x); }
  }

  lemma {:induction false} BelowIsLater(ts: Trackers, y: nat, x: nat)
    requires Wf(ts) && y < |ts| && Below(ts, y, x)
    ensures x <= y
    decreases y
  {
    if y != x { BelowIsLater(ts, ts[y].parent, x); }
  }

  lemma {:induction false} BelowTrans(ts: Trackers, z: nat, y: nat, x: nat)
    requires Wf(ts) && z < |ts| && y < |ts| && Below(ts, z, y) && Below(ts, y, x)
    ensures Below(ts, z, x)
    decreases z
  {
    if z != y && z != x { BelowTrans(ts, ts[z].parent, y, x); }
  }

  /** Subtrees of different children of one tracker do not meet. */
  lemma {:induction false} SiblingsApart(ts: Trackers, y: nat, a: nat, b: nat)
    requires Wf(ts) && y < |ts| && a < |ts| && b < |ts| && a != b && ts[a].parent == ts[b].parent
    requires Below(ts, y, a)
    ensures !Below(ts, y, b)
    decreases y
  {
    if y == a {
      if Below(ts, y, b) { BelowIsLater(ts, ts[y].parent, b); }
    } else {
      SiblingsApart(ts, ts[y].parent, a, b);
      if y == b { BelowIsLater(ts, ts[b].parent, a); }
    }
  }

  /** The subtree at `x` is what is left behind after `k` leaves of `s` have been executed. */
  ghost predicate Rep(ts: Trackers, x: nat, s: Section, k: nat)
    decreases s, 2
  {
    && x < |ts| && ts[x].name == s.name && k <= Leaves(s) && Kids(ts, x, s, k)
    && ts[x].runState == (if k == 0 then Idle else if k == Leaves(s) then CompletedSuccessfully else RunningChildren)
  }

  /** Nothing has been created before the first run; afterwards each child has its share of the leaves. */
  ghost predicate Kids(ts: Trackers, x: nat, s: Section, k: nat)
    requires x < |ts|
    decreases s, 1
  {
    if k == 0 then ts[x].children == []
    else |ts[x].children| == |s.subs| && forall i :: 0 <= i < |s.subs| ==> Kid(ts, x, s, i, k)
  }

  /** The `i`-th child of `x` stands for the `i`-th sub-section and its share of the first `k` leaves. */
  ghost predicate Kid(ts: Trackers, x: nat, s: Section, i: nat, k: nat)
    requires x < |ts| && i < |s.subs| && i < |ts[x].children|
    decreases s, 0
  {
    var c := ts[x].children[i];
    c < |ts| && ts[c].parent == x && Rep(ts, c, s.subs[i], Share(s.subs, i, k))
  }

  /** A subtree that has not been touched still represents the same progress. */
  lemma {:induction false} RepKept(before: Trackers, after: Trackers, x: nat, s: Section, k: nat)
    requires Wf(before) && Wf(after) && Extends(before, after) && Rep(before, x, s, k)
    requires forall y :: 0 <= y < |before| && Below(before, y, x) ==> after[y] == before[y]
    ensures Rep(after, x, s, k)
    decreases s
  {
    if k > 0 {
      forall i | 0 <= i < |s.subs| ensures Kid(after, x, s, i, k) {
        KidKept(before, after, x, s, i, k);
      }
    }
  }

  /** What is below `x` and below `c` has not changed. */
  ghost predicate SameBelow(before: Trackers, after: Trackers, x: nat, c: nat)
    requires Wf(before) && |before| <= |after|
  {
    forall y :: 0 <= y < |before| && y != x && Below(before, y, x) && Below(before, y, c) ==> after[y] == before[y]
  }

  lemma {:induction false} KidKept(before: Trackers, after: Trackers, x: nat, s: Section, i: nat, k: nat)
    requires Wf(before) && Wf(after) && Extends(before, after) && x < |before|
    requires i < |s.subs| && i < |before[x].children| && i < |after[x].children| &&
             after[x].children[i] == before[x].children[i]
    requires Kid(before, x, s, i, k)
    requires SameBelow(before, after, x, before[x].children[i])
    ensures Kid(after, x, s, i, k)
    decreases s, 0
  {
    var c := before[x].children[i];
    forall y | 0 <= y < |before| && Below(before, y, c) ensures after[y] == before[y] {
      BelowTrans(before, y, c, x);
      BelowIsLater(before, y, c);
    }
    RepKept(before, after, c, s.subs[i], Share(s.subs, i, k));
  }

  /** `openChild`: upwards from `x`, trackers become "running children" until one already is. */
  function Risen(ts: Trackers, x: int): (r: Trackers)
    requires Wf(ts) && -1 <= x < |ts|
    ensures Wf(r) && Extends(ts, r) && |r| == |ts|
    decreases x
  {
    if x < 0 || ts[x].runState == RunningChildren then ts
    else Risen(ts[x := ts[x].(runState := RunningChildren)], ts[x].parent)
  }

  function Opened(ts: Trackers, x: nat): (r: Trackers)
    requires Wf(ts) && x < |ts|
    ensures Wf(r) && Extends(ts, r) && |r| == |ts|
  {
    Risen(ts[x := ts[x].(runState := Running)], ts[x].parent)
  }

  /** Position of the first child with the given name; the number of children if there is none. */
  function FindChild(ts: Trackers, children: seq<nat>, name: string): (i: nat)
    requires forall j :: 0 <= j < |children| ==> children[j] < |ts|
    ensures i <= |children|
    ensures i < |children| ==> ts[children[i]].name == name
    ensures forall j :: 0 <= j < i ==> ts[children[j]].name != name
  {
    if children == [] || ts[children[0]].name == name then 0 else 1 + FindChild(ts, children[1..], name)
  }

  function WithChild(ts: Trackers, x: nat, name: string): (r: Trackers)
    requires Wf(ts) && x < |ts|
    ensures Wf(r) && Extends(ts, r) && |r| == |ts| + 1
  {
    ts[x := ts[x].(children := ts[x].children + [|ts|])] + [Tracker(name, x, [], Idle)]
  }

  class TrackerContext {
    var trackers: Trackers
    var rootTracker: int
    var currentTracker: int
    var runState: RunState
    var illogical: bool  // a "logic_error" was thrown

    ghost predicate Valid()
      reads this
    {
      Wf(trackers) && -1 <= currentTracker < |trackers| && -1 <= rootTracker < |trackers|
    }

    constructor ()
      ensures Valid() && trackers == [] && rootTracker == -1 && currentTracker == -1 && runState == NotStarted &&
              !illogical
    {
      trackers, rootTracker, currentTracker, runState, illogical := [], -1, -1, NotStarted, false;
    }

    method StartRun()
      modifies this
      ensures Valid() && trackers == [Tracker("{root}", -1, [], Idle)] && rootTracker == 0 && currentTracker == -1
      ensures runState == Executing && illogical == old(illogical)
    {
      trackers, rootTracker, currentTracker, runState := [Tracker("{root}", -1, [], Idle)], 0, -1, Executing;
    }

    method StartCycle()
      requires Valid()
      modifies this`currentTracker, this`runState
      ensures Valid() && currentTracker == rootTracker && runState == Executing
    {
      currentTracker, runState := rootTracker, Executing;
    }

    method OpenChild(x: int)
      requires Valid() && -1 <= x < |trackers|
      modifies this`trackers
      ensures Valid() && trackers == Risen(old(trackers), x)
      decreases x
    {
      if x >= 0 && trackers[x].runState != RunningChildren {
        trackers := trackers[x := trackers[x].(runState := RunningChildren)];
        OpenChild(trackers[x].parent);
      }
    }

    method Open(x: nat)
      requires Valid() && x < |trackers|
      modifies this`trackers, this`currentTracker
      ensures Valid() && trackers == Opened(old(trackers), x) && currentTracker == x
    {
      trackers := trackers[x := trackers[x].(runState := Running)];
      currentTracker := x;
      OpenChild(trackers[x].parent);
    }

    /** Closes the trackers that are still open below `x`, from the current one upwards, and then `x`;
        meeting one that is not open is a logic error, which ends it. */
    method Close(x: nat)
      requires Valid() && x < |trackers| && currentTracker >= 0 && Below(trackers, currentTracker, x)
      modifies this`trackers, this`currentTracker, this`runState, this`illogical
      ensures Valid() && trackers == ClosedFrom(old(trackers), old(currentTracker), x).0
      ensures if ClosedFrom(old(trackers), old(currentTracker), x).1
              then currentTracker == trackers[x].parent && runState == CompletedCycle && illogical == old(illogical)
              else illogical
    {
      var closed := true;
      ghost var ts, y := trackers, currentTracker;
      while closed && currentTracker != x
        invariant Valid() && (closed ==> currentTracker >= 0 && Below(trackers, currentTracker, x))
        invariant closed ==> illogical == old(illogical)
                             && ClosedFrom(trackers, currentTracker, x) == ClosedFrom(ts, y, x)
        invariant !closed ==> illogical && ClosedFrom(ts, y, x) == (trackers, false)
        decreases closed, currentTracker
      {
        ghost var before, z := trackers, currentTracker;
        closed := CloseCurrent();
        if closed { BelowKept(before, trackers, before[z].parent, x); }
      }
      if closed {
        closed := CloseCurrent();
      }
    }

    /** The state changes of `close` on the current tracker. */
    method CloseCurrent() returns (closed: bool)
      requires Valid() && currentTracker >= 0
      modifies this`trackers, this`currentTracker, this`runState, this`illogical
      ensures Valid() && closed == IsOpen(old(trackers[currentTracker]))
      ensures !closed ==> illogical && trackers == old(trackers) && currentTracker == old(currentTracker)
      ensures closed ==>
        && trackers == old(trackers)[old(currentTracker) := Closed(old(trackers), old(currentTracker))]
        && currentTracker == old(trackers[currentTracker].parent) && runState == CompletedCycle
        && illogical == old(illogical)
    {
      var x := currentTracker;
      match trackers[x].runState {
        case Idle => illogical := true; return false;
        case CompletedSuccessfully => illogical := true; return false;
        case Failed => illogical := true; return false;
        case NeedsAnotherRun =>
        case Running => trackers := trackers[x := trackers[x].(runState := CompletedSuccessfully)];
        case RunningChildren =>
          var children := trackers[x].children;
          if children == [] || IsComplete(trackers[children[|children| - 1]]) {
            trackers := trackers[x := trackers[x].(runState := CompletedSuccessfully)];
          }
      }
      currentTracker, runState := trackers[x].parent, CompletedCycle;
      return true;
    }

    /** `SectionTracker::acquire`: find or create the child of the current tracker, and open it
        unless this cycle already completed or the section is done. */
    method Acquire(name: string) returns (child: nat)
      requires Valid() && currentTracker >= 0
      modifies this`trackers, this`currentTracker
      ensures Valid() && (child, trackers, currentTracker) ==
                Acquired(old(trackers), old(currentTracker), name, runState)
    {
      var children := trackers[currentTracker].children;
      var i := FindChild(trackers, children, name);
      if i < |children| {
        child := children[i];
      } else {
        child := |trackers|;
        trackers := WithChild(trackers, currentTracker, name);
      }
      if runState != CompletedCycle && !IsComplete(trackers[child]) {
        Open(child);
      }
    }
  }

  function Closed(ts: Trackers, x: nat): Tracker
    requires Wf(ts) && x < |ts|
  {
    var t := ts[x];
    if t.runState == Running
       || (t.runState == RunningChildren && (t.children == [] || IsComplete(ts[t.children[|t.children| - 1]])))
    then t.(runState := CompletedSuccessfully)
    else t
  }

  /** Closing from `y` up to `x`, as far as the trackers met are open. */
  function ClosedFrom(ts: Trackers, y: nat, x: nat): (r: (Trackers, bool))
    requires Wf(ts) && y < |ts|
    ensures Wf(r.0) && Extends(ts, r.0) && |r.0| == |ts|
    decreases y
  {
    if !IsOpen(ts[y]) then (ts, false)
    else
      var after := ts[y := Closed(ts, y)];
      if y == x then (after, true)
      else if ts[y].parent < 0 then (after, false)
      else ClosedFrom(after, ts[y].parent, x)
  }

  /** It goes through exactly if every tracker on the way is open, and nothing off the way changes. */
  lemma {:induction false} ClosesIffOpen(ts: Trackers, y: nat, x: nat)
    requires Wf(ts) && y < |ts| && Below(ts, y, x)
    ensures ClosedFrom(ts, y, x).1 <==>
              forall z :: 0 <= z < |ts| && Below(ts, y, z) && Below(ts, z, x) ==> IsOpen(ts[z])
    ensures forall z :: 0 <= z < |ts| && !(Below(ts, y, z) && Below(ts, z, x)) ==> ClosedFrom(ts, y, x).0[z] == ts[z]
    decreases y
  {
    var up, after := ts[y].parent, ts[y := Closed(ts, y)];
    if y == x {
      forall z | 0 <= z < |ts| && Below(ts, y, z) && Below(ts, z, x) ensures z == x {
        BelowIsLater(ts, y, z);
        BelowIsLater(ts, z, x);
      }
    } else {
      BelowIsLater(ts, up, x);
      BelowKept(ts, after, up, x);
      if IsOpen(ts[y]) { ClosesIffOpen(after, up, x); }
      forall z | 0 <= z < |ts| && z != y
        ensures Below(after, up, z) == Below(ts, y, z) && Below(after, z, x) == Below(ts, z, x) && after[z] == ts[z]
      {
        BelowKept(ts, after, up, z);
        BelowKept(ts, after, z, x);
      }
      if Below(after, up, y) { BelowIsLater(after, up, y); }
    }
  }

  function Acquired(ts: Trackers, t: nat, name: string, cycle: RunState): (r: (nat, Trackers, int))
    requires Wf(ts) && t < |ts|
    ensures Wf(r.1) && Extends(ts, r.1) && r.0 < |r.1|
  {
    var i := FindChild(ts, ts[t].children, name);
    var (child, found) := if i < |ts[t].children| then (ts[t].children[i], ts) else (|ts|, WithChild(ts, t, name));
    if cycle != CompletedCycle && !IsComplete(found[child]) then (child, Opened(found, child), child)
        else (child, found, t)
  }

  /** Tracker `t` is running `s`, of which `k` leaves were done before: `i` sub-sections have been passed. */
  ghost predicate Midway(ts: Trackers, t: nat, s: Section, k: nat, i: nat) {
    && Wf(ts) && t < |ts| && ts[t].name == s.name && DistinctNames(s) && k < Leaves(s) && i <= |s.subs|
    && ts[t].parent >= 0 && ts[ts[t].parent].runState == RunningChildren
    && ts[t].runState == (if k < Before(s.subs, i) then RunningChildren else Running)
    && Around(ts, t, s, k, i, |s.subs|) && (k == 0 ==> |ts[t].children| == i)
  }

  /** All children of `t` but the one at `gap` are as they are when `i` sub-sections have been passed. */
  ghost predicate Around(ts: Trackers, t: nat, s: Section, k: nat, i: nat, gap: nat)
    requires t < |ts|
  {
    && |ts[t].children| <= |s.subs| && (if k == 0 then i <= |ts[t].children| <= i + 1 else |ts[t].children| == |s.subs|)
    && KidsFrom(ts, t, s, k + 1, 0, i, gap)
    && KidsFrom(ts, t, s, k, i, |ts[t].children|, gap)
  }

  ghost predicate KidsFrom(ts: Trackers, t: nat, s: Section, k: nat, from: nat, to: nat, gap: nat)
    requires t < |ts|
  {
    forall j :: from <= j < to && j < |s.subs| && j < |ts[t].children| && j != gap ==> Kid(ts, t, s, j, k)
  }

  /** What is below `t` but not below `c` has not changed. */
  ghost predicate SameOutside(before: Trackers, after: Trackers, t: nat, c: nat)
    requires Wf(before) && |before| <= |after|
  {
    forall y :: 0 <= y < |before| && y != t && Below(before, y, t) && !Below(before, y, c) ==> after[y] == before[y]
  }

  /** A child is not affected by changes at its parent, outside the parent's subtree or below a sibling. */
  lemma KidUnmoved(before: Trackers, after: Trackers, t: nat, s: Section, i: nat, j: nat, k: nat)
    requires Wf(before) && Wf(after) && Extends(before, after) && t < |before|
    requires i < |before[t].children| && before[before[t].children[i]].parent == t &&
             before[t].children <= after[t].children
    requires j < |s.subs| && j < |before[t].children| && before[t].children[j] != before[t].children[i]
    requires Kid(before, t, s, j, k) && SameOutside(before, after, t, before[t].children[i])
    ensures Kid(after, t, s, j, k)
  {
    forall y | 0 <= y < |before| && y != t && Below(before, y, t) && Below(before, y, before[t].children[j])
      ensures after[y] == before[y]
    {
      SiblingsApart(before, y, before[t].children[j], before[t].children[i]);
    }
    KidKept(before, after, t, s, j, k);
  }

  /** What the changes made by one sub-section leave alone: everything below `t` outside child `i`. */
  ghost predicate OnlyChild(before: Trackers, after: Trackers, t: nat, i: nat)
    requires t < |before|
  {
    && Wf(before) && Wf(after) && Extends(before, after)
    && i < |before[t].children| && before[t].children[i] < |before| && before[before[t].children[i]].parent == t
    && after[t].children == before[t].children
    && SameOutside(before, after, t, before[t].children[i])
  }

  lemma KidName(ts: Trackers, t: nat, s: Section, j: nat, k: nat)
    requires t < |ts| && j < |s.subs| && j < |ts[t].children| && Kid(ts, t, s, j, k)
    ensures ts[ts[t].children[j]].name == s.subs[j].name
  {
    RepParts(ts, ts[t].children[j], s.subs[j], Share(s.subs, j, k));
  }

  lemma RepParts(ts: Trackers, x: nat, s: Section, k: nat)
    requires Rep(ts, x, s, k)
    ensures x < |ts| && ts[x].name == s.name && k <= Leaves(s) && Kids(ts, x, s, k)
    ensures IsOpen(ts[x]) <==> 0 < k < Leaves(s)
    ensures IsComplete(ts[x]) <==> k == Leaves(s)
  {
  }

  lemma AroundKept(before: Trackers, after: Trackers, t: nat, s: Section, k: nat, i: nat)
    requires t < |before| && OnlyChild(before, after, t, i) && Around(before, t, s, k, i, i)
    requires DistinctNames(s) && i < |s.subs| && before[before[t].children[i]].name == s.subs[i].name
    ensures Around(after, t, s, k, i, i)
  {
    var cs, next := before[t].children, k + 1;
    forall j | 0 <= j < i ensures Kid(after, t, s, j, next) {
      KidName(before, t, s, j, next);
      KidUnmoved(before, after, t, s, i, j, next);
    }
    forall j | i < j < |cs| ensures Kid(after, t, s, j, k) {
      KidName(before, t, s, j, k);
      KidUnmoved(before, after, t, s, i, j, k);
    }
  }

  lemma FoundAt(ts: Trackers, t: nat, s: Section, k: nat, i: nat)
    requires Midway(ts, t, s, k, i) && i < |s.subs|
    ensures FindChild(ts, ts[t].children, s.subs[i].name) == i
    ensures i <= |ts[t].children| && (i == |ts[t].children| ==> k == 0)
  {
    var cs, f := ts[t].children, FindChild(ts, ts[t].children, s.subs[i].name);
    forall j | 0 <= j < |cs| ensures ts[cs[j]].name == s.subs[j].name {
      KidName(ts, t, s, j, if j < i then k + 1 else k);
    }
    assert f < |cs| ==> s.subs[f].name == s.subs[i].name;
  }

  /** Once acquired, the `i`-th child is there with its share of the first `k` leaves, and the others are as before. */
  lemma FoundAround(ts: Trackers, t: nat, s: Section, k: nat, i: nat, found: Trackers)
    requires Midway(ts, t, s, k, i) && i < |s.subs|
    requires found == if i < |ts[t].children| then ts else WithChild(ts, t, s.subs[i].name)
    ensures Wf(found) && i < |found[t].children| && Around(found, t, s, k, i, i) && Kid(found, t, s, i, k)
    ensures k == 0 ==> |found[t].children| == i + 1
    ensures OnlyBelow(ts, found, t)
    ensures found[t] == ts[t].(children := found[t].children)
  {
    FoundAt(ts, t, s, k, i);
    if i < |ts[t].children| {
      assert Kid(ts, t, s, i, k);
    } else {
      forall j | 0 <= j < i ensures Kid(found, t, s, j, 1) {
        assert Kid(ts, t, s, j, 1);
        KidKept(ts, found, t, s, j, 1);
      }
      assert Rep(found, |ts|, s.subs[i], 0);
    }
  }

  /** A child that does not hold leaf `k` is acquired without being opened. */
  lemma AcquiredClosed(ts: Trackers, t: nat, s: Section, k: nat, i: nat, cycle: RunState)
    requires Midway(ts, t, s, k, i) && i < |s.subs| && !(Before(s.subs, i) <= k < Before(s.subs, i + 1))
    requires cycle == if k < Before(s.subs, i) then CompletedCycle else Executing
    ensures var (c, after, current) := Acquired(ts, t, s.subs[i].name, cycle);
            && current == t && !IsOpen(after[c]) && OnlyBelow(ts, after, t) && Midway(after, t, s, k, i + 1)
            && after[t].runState == ts[t].runState
  {
    var found := if i < |ts[t].children| then ts else WithChild(ts, t, s.subs[i].name);
    FoundAt(ts, t, s, k, i);
    FoundAround(ts, t, s, k, i, found);
    BeforeNext(s.subs, i);
    RepParts(found, found[t].children[i], s.subs[i], Share(s.subs, i, k));
    assert Share(s.subs, i, k) == Share(s.subs, i, k + 1);
    assert Kid(found, t, s, i, k + 1);
  }

  /** The child that holds leaf `k` is acquired and opened, ready to run. */
  lemma AcquiredOpen(ts: Trackers, t: nat, s: Section, k: nat, i: nat)
    requires Midway(ts, t, s, k, i) && i < |s.subs| && Before(s.subs, i) <= k < Before(s.subs, i + 1)
    ensures var (c, after, current) := Acquired(ts, t, s.subs[i].name, Executing);
            && current == c && IsOpen(after[c]) && OnlyBelow(ts, after, t) && Entered(after, t, s, k, i, c)
  {
    var found := if i < |ts[t].children| then ts else WithChild(ts, t, s.subs[i].name);
    FoundAt(ts, t, s, k, i);
    FoundAround(ts, t, s, k, i, found);
    BeforeNext(s.subs, i);
    FoundOpens(found, t, s, k, i);
    OnlyBelowTrans(ts, found, Opened(found, found[t].children[i]), t);
  }

  lemma FoundOpens(found: Trackers, t: nat, s: Section, k: nat, i: nat)
    requires Wf(found) && t < |found| && found[t].name == s.name && DistinctNames(s) && i < |s.subs|
    requires Before(s.subs, i) <= k < Before(s.subs, i) + Leaves(s.subs[i]) && k < Leaves(s)
    requires found[t].parent >= 0 && found[found[t].parent].runState == RunningChildren && found[t].runState == Running
    requires i < |found[t].children| && Around(found, t, s, k, i, i) && Kid(found, t, s, i, k) &&
             (k == 0 ==> |found[t].children| == i + 1)
    ensures var c := found[t].children[i]; var after := Opened(found, c);
            && !IsComplete(found[c]) && IsOpen(after[c]) && OnlyBelow(found, after, t) && Entered(after, t, s, k, i, c)
  {
    var c := found[t].children[i];
    BeforeNext(s.subs, i);
    RepParts(found, c, s.subs[i], Share(s.subs, i, k));
    OpenedPair(found, c, t);
    OpenedChild(found, t, s, k, i, Opened(found, c));
  }

  /** Child `c` of `t`, the `i`-th, has been opened for leaf `k`. */
  ghost predicate Entered(ts: Trackers, t: nat, s: Section, k: nat, i: nat, c: nat) {
    && Wf(ts) && t < |ts| && ts[t].name == s.name && DistinctNames(s) && k < Leaves(s) && i < |s.subs|
    && ts[t].parent >= 0 && ts[ts[t].parent].runState == RunningChildren && ts[t].runState == RunningChildren
    && Around(ts, t, s, k, i, i) && i < |ts[t].children| && (k == 0 ==> |ts[t].children| == i + 1) &&
        ts[t].children[i] == c
    && ts[c].parent == t && ts[c].name == s.subs[i].name && ts[c].runState == Running
    && Before(s.subs, i) <= k < Before(s.subs, i + 1) && Kids(ts, c, s.subs[i], k - Before(s.subs, i))
  }

  lemma OnlyBelowTrans(a: Trackers, b: Trackers, c: Trackers, x: nat)
    requires OnlyBelow(a, b, x) && OnlyBelow(b, c, x)
    ensures OnlyBelow(a, c, x)
  {
    forall y | 0 <= y < |a| && !Below(a, y, x) ensures c[y] == a[y] {
      BelowKept(a, b, y, x);
    }
    forall y | |a| <= y < |c| ensures Below(c, y, x) {
      if y < |b| { BelowKept(b, c, y, x); }
    }
  }

  /** What happens below a child happens below its parent. */
  lemma OnlyBelowParent(a: Trackers, b: Trackers, c: nat, t: nat)
    requires OnlyBelow(a, b, c) && c < |a| && a[c].parent == t
    ensures OnlyBelow(a, b, t)
  {
    forall y | 0 <= y < |a| && !Below(a, y, t) ensures b[y] == a[y] {
      if Below(a, y, c) { BelowTrans(a, y, c, t); }
    }
    forall y | |a| <= y < |b| ensures Below(b, y, t) {
      BelowTrans(b, y, c, t);
    }
  }

  /** After the child has run, one more sub-section has been passed. */
  lemma ChildPassed(ts: Trackers, t: nat, s: Section, k: nat, i: nat, c: nat, after: Trackers)
    requires Entered(ts, t, s, k, i, c) && OnlyBelow(ts, after, c)
    requires Rep(after, c, s.subs[i], k - Before(s.subs, i) + 1)
    ensures Midway(after, t, s, k, i + 1) && OnlyBelow(ts, after, t)
  {
    OnlyBelowParent(ts, after, c, t);
    BeforeNext(s.subs, i);
    if Below(ts, t, c) { BelowIsLater(ts, t, c); }
    AroundKept(ts, after, t, s, k, i);
    assert Kid(after, t, s, i, k + 1);
  }

  lemma OpenedPair(ts: Trackers, c: nat, t: nat)
    requires Wf(ts) && c < |ts| && t < |ts| && ts[c].parent == t && ts[t].runState == Running
    requires ts[t].parent >= 0 && ts[ts[t].parent].runState == RunningChildren
    ensures Opened(ts, c) == ts[c := ts[c].(runState := Running)][t := ts[t].(runState := RunningChildren)]
  {
    var one := ts[c := ts[c].(runState := Running)];
    var two := one[t := ts[t].(runState := RunningChildren)];
    assert Risen(two, ts[t].parent) == two;
  }

  lemma OpenedChild(ts: Trackers, t: nat, s: Section, k: nat, i: nat, after: Trackers)
    requires Wf(ts) && t < |ts| && i < |s.subs| && i < |ts[t].children| && DistinctNames(s)
    requires Kid(ts, t, s, i, k) && Around(ts, t, s, k, i, i)
    requires var c := ts[t].children[i];
             after == ts[c := ts[c].(runState := Running)][t := ts[t].(runState := RunningChildren)]
    ensures OnlyBelow(ts, after, t) && Around(after, t, s, k, i, i)
    ensures Kids(after, ts[t].children[i], s.subs[i], Share(s.subs, i, k))
  {
    var c, sub, m := ts[t].children[i], s.subs[i], Share(s.subs, i, k);
    KidName(ts, t, s, i, k);
    RepParts(ts, c, sub, m);
    assert Below(ts, c, t);
    AroundKept(ts, after, t, s, k, i);
    if m > 0 {
      forall j | 0 <= j < |sub.subs| ensures Kid(after, c, sub, j, m) {
        assert Kid(ts, c, sub, j, m);
        forall y | 0 <= y < |ts| && y != c && Below(ts, y, c) ensures after[y] == ts[y] {
          BelowIsLater(ts, y, c);
        }
        KidKept(ts, after, c, sub, j, m);
      }
    }
  }

  /** Closing a tracker whose sub-sections account for `k` leaves records that many. */
  lemma ClosedRep(ts: Trackers, x: nat, s: Section, k: nat)
    requires Wf(ts) && x < |ts| && ts[x].name == s.name && 0 < k <= Leaves(s) && Kids(ts, x, s, k)
    requires ts[x].runState == if s.subs == [] then Running else RunningChildren
    ensures Rep(ts[x := Closed(ts, x)], x, s, k) && OnlyBelow(ts, ts[x := Closed(ts, x)], x)
  {
    var after := ts[x := Closed(ts, x)];
    if s.subs != [] {
      var last := |s.subs| - 1;
      LastShare(s, k);
      assert Kid(ts, x, s, last, k);
      RepParts(ts, ts[x].children[last], s.subs[last], Share(s.subs, last, k));
    }
    forall i | 0 <= i < |s.subs| ensures Kid(after, x, s, i, k) {
      assert Kid(ts, x, s, i, k);
      KidKept(ts, after, x, s, i, k);
    }
  }

  /** The last sub-section is done exactly when all leaves are. */
  lemma LastShare(s: Section, k: nat)
    requires s.subs != [] && k <= Leaves(s)
    ensures Share(s.subs, |s.subs| - 1, k) == Leaves(s.subs[|s.subs| - 1]) <==> k == Leaves(s)
  {
    BeforeNext(s.subs, |s.subs| - 1);
    BeforeAll(s.subs);
  }

  /** All sub-sections passed: the children account for one leaf more. */
  lemma AllPassed(ts: Trackers, t: nat, s: Section, k: nat, next: nat)
    requires Midway(ts, t, s, k, |s.subs|) && next == k + 1
    ensures Kids(ts, t, s, next)
  {
    assert KidsFrom(ts, t, s, next, 0, |s.subs|, |s.subs|);
    assert |ts[t].children| == |s.subs|;
    assert forall j :: 0 <= j < |s.subs| ==> Kid(ts, t, s, j, next);
  }

  class RunContext {
    const ctx: TrackerContext
    var activeSections: seq<nat>

    constructor ()
      ensures fresh(ctx) && ctx.Valid() && activeSections == [] && !ctx.illogical
    {
      ctx := new TrackerContext();
      activeSections := [];
    }

    ghost predicate At(t: nat, cycle: RunState)
      reads ctx
    {
      ctx.Valid() && ctx.currentTracker == t && ctx.runState == cycle && !ctx.illogical
    }

    /** An open section up to and including its closing; `events` lists the sections entered and left. */
    method RunSection(c: nat, s: Section, ghost k: nat) returns (events: seq<Event>)
      requires At(c, Executing) && Midway(ctx.trackers, c, s, k, 0)
      modifies this, ctx
      ensures OnlyBelow(old(ctx.trackers), ctx.trackers, c) && Rep(ctx.trackers, c, s, k + 1)
      ensures At(ctx.trackers[c].parent, CompletedCycle)
      ensures ctx.rootTracker == old(ctx.rootTracker) && activeSections == old(activeSections)
      ensures k < Leaves(s) && events == Visit(PathTo(s, k))
      decreases s, 2
    {
      activeSections := activeSections + [c];
      var inner := RunBody(c, s, k);
      ghost var before := ctx.trackers;
      CloseSection(activeSections[|activeSections| - 1], s, k);
      activeSections := activeSections[..|activeSections| - 1];
      OnlyBelowTrans(old(ctx.trackers), before, ctx.trackers, c);
      events := [Enter(s.name)] + inner + [Leave(s.name)];
    }

    /** Closes the tracker of a section that has just run leaf `k`. */
    method CloseSection(c: nat, s: Section, ghost k: nat)
      requires At(c, if s.subs == [] then Executing else CompletedCycle) && k < Leaves(s)
      requires ctx.trackers[c].name == s.name && ctx.trackers[c].parent >= 0 && Kids(ctx.trackers, c, s, k + 1)
      requires ctx.trackers[c].runState == if s.subs == [] then Running else RunningChildren
      modifies ctx
      ensures OnlyBelow(old(ctx.trackers), ctx.trackers, c) && Rep(ctx.trackers, c, s, k + 1)
      ensures ctx.trackers[c].parent == old(ctx.trackers[c].parent) && At(ctx.trackers[c].parent, CompletedCycle)
      ensures ctx.rootTracker == old(ctx.rootTracker)
    {
      ClosedRep(ctx.trackers, c, s, k + 1);
      ctx.Close(c);
    }

    /** One execution of the test case: its body, then closing its tracker. */
    method RunCurrentTest(c: nat, s: Section, ghost k: nat) returns (events: seq<Event>)
      requires At(c, Executing) && Midway(ctx.trackers, c, s, k, 0)
      modifies this, ctx
      ensures OnlyBelow(old(ctx.trackers), ctx.trackers, c) && Rep(ctx.trackers, c, s, k + 1)
      ensures At(ctx.trackers[c].parent, CompletedCycle)
      ensures ctx.rootTracker == old(ctx.rootTracker) && activeSections == old(activeSections)
      ensures k < Leaves(s) && events == Visit(PathTo(s, k))
    {
      var inner := RunBody(c, s, k);
      ghost var before := ctx.trackers;
      CloseSection(c, s, k);
      OnlyBelowTrans(old(ctx.trackers), before, ctx.trackers, c);
      events := [Enter(s.name)] + inner + [Leave(s.name)];
    }

    /** The run loop of a test case: cycle `k` runs exactly the path to leaf `k`, the loop ends after
        the last leaf, and no tracker is ever closed in an impossible state. */
    method RunTest(s: Section) returns (cycles: seq<seq<Event>>)
      requires DistinctNames(s) && !ctx.illogical
      modifies this, ctx
      ensures |cycles| == Leaves(s) && !ctx.illogical
      ensures forall k :: 0 <= k < |cycles| ==> cycles[k] == Visit(PathTo(s, k))
    {
      ctx.StartRun();
      cycles := [];
      while true
        invariant |cycles| < Leaves(s) && ctx.Valid() && !ctx.illogical && ctx.rootTracker == 0
        invariant BetweenCycles(ctx.trackers, s, |cycles|)
        invariant forall k :: 0 <= k < |cycles| ==> cycles[k] == Visit(PathTo(s, k))
        decreases Leaves(s) - |cycles|
      {
        var events, completed := RunCycle(s, |cycles|);
        cycles := cycles + [events];
        if completed { break; }
      }
    }

    /** One cycle: acquire the test case's tracker, run the test, look whether it completed. */
    method RunCycle(s: Section, ghost k: nat) returns (events: seq<Event>, completed: bool)
      requires DistinctNames(s) && k < Leaves(s) && ctx.Valid() && !ctx.illogical && ctx.rootTracker == 0
      requires BetweenCycles(ctx.trackers, s, k)
      modifies this, ctx
      ensures ctx.Valid() && !ctx.illogical && ctx.rootTracker == 0 && BetweenCycles(ctx.trackers, s, k + 1)
      ensures events == Visit(PathTo(s, k))
      ensures completed <==> k + 1 == Leaves(s)
    {
      ctx.StartCycle();
      TestAcquired(ctx.trackers, s, k);
      var test := ctx.Acquire(s.name);
      ghost var before := ctx.trackers;
      events := RunCurrentTest(test, s, k);
      RootUntouched(before, ctx.trackers);
      RepParts(ctx.trackers, 1, s, k + 1);
      completed := ctx.trackers[test].runState == CompletedSuccessfully;
    }

    /** The code of a section: its sub-sections in program order. */
    method RunBody(t: nat, s: Section, ghost k: nat) returns (events: seq<Event>)
      requires At(t, Executing) && Midway(ctx.trackers, t, s, k, 0)
      modifies this, ctx
      ensures At(t, if s.subs == [] then Executing else CompletedCycle)
      ensures OnlyBelow(old(ctx.trackers), ctx.trackers, t) && Kids(ctx.trackers, t, s, k + 1)
      ensures ctx.trackers[t].runState == if s.subs == [] then Running else RunningChildren
      ensures ctx.rootTracker == old(ctx.rootTracker) && activeSections == old(activeSections)
      ensures if s.subs == [] then events == [] else k < LeavesOf(s.subs) && events == Visit(PathIn(s.subs, k))
      decreases s, 1
    {
      BeforeAll(s.subs);
      events := [];
      var i := 0;
      while i < |s.subs|
        invariant 0 <= i <= |s.subs|
        invariant At(t, if k < Before(s.subs, i) then CompletedCycle else Executing)
        invariant Midway(ctx.trackers, t, s, k, i) && OnlyBelow(old(ctx.trackers), ctx.trackers, t)
        invariant ctx.rootTracker == old(ctx.rootTracker) && activeSections == old(activeSections)
        invariant if k < Before(s.subs, i) then k < LeavesOf(s.subs) && events == Visit(PathIn(s.subs, k))
                    else events == []
      {
        ghost var before := ctx.trackers;
        BeforeNext(s.subs, i);
        var inner := RunSub(t, s, k, i);
        OnlyBelowTrans(old(ctx.trackers), before, ctx.trackers, t);
        events := events + inner;
        i := i + 1;
      }
      AllPassed(ctx.trackers, t, s, k, k + 1);
    }

    /** One `SECTION` block inside the body of `s`. */
    method RunSub(t: nat, s: Section, ghost k: nat, i: nat) returns (events: seq<Event>)
      requires i < |s.subs| && At(t, if k < Before(s.subs, i) then CompletedCycle else Executing)
      requires Midway(ctx.trackers, t, s, k, i)
      modifies this, ctx
      ensures At(t, if k < Before(s.subs, i + 1) then CompletedCycle else Executing)
      ensures Midway(ctx.trackers, t, s, k, i + 1) && OnlyBelow(old(ctx.trackers), ctx.trackers, t)
      ensures ctx.rootTracker == old(ctx.rootTracker) && activeSections == old(activeSections)
      ensures if Before(s.subs, i) <= k < Before(s.subs, i + 1)
              then k < LeavesOf(s.subs) && events == Visit(PathIn(s.subs, k)) else events == []
      decreases s, 0, 1
    {
      events := [];
      ghost var before := ctx.trackers;
      var c := AcquireSub(t, s, k, i);
      if !IsOpen(ctx.trackers[c]) { return; }
      ghost var entered := ctx.trackers;
      events := RunChild(t, s, k, i, c);
      OnlyBelowTrans(before, entered, ctx.trackers, t);
    }

    /** Its tracker is open exactly if leaf `k` is below it. */
    method AcquireSub(t: nat, s: Section, ghost k: nat, i: nat) returns (c: nat)
      requires i < |s.subs| && At(t, if k < Before(s.subs, i) then CompletedCycle else Executing)
      requires Midway(ctx.trackers, t, s, k, i)
      modifies ctx
      ensures c < |ctx.trackers| && OnlyBelow(old(ctx.trackers), ctx.trackers, t)
      ensures IsOpen(ctx.trackers[c]) <==> Before(s.subs, i) <= k < Before(s.subs, i + 1)
      ensures IsOpen(ctx.trackers[c]) ==> At(c, Executing) && Entered(ctx.trackers, t, s, k, i, c)
      ensures !IsOpen(ctx.trackers[c]) ==>
                At(t, if k < Before(s.subs, i + 1) then CompletedCycle else Executing) &&
                Midway(ctx.trackers, t, s, k, i + 1)
      ensures ctx.rootTracker == old(ctx.rootTracker)
    {
      BeforeNext(s.subs, i);
      if Before(s.subs, i) <= k < Before(s.subs, i + 1) {
        AcquiredOpen(ctx.trackers, t, s, k, i);
      } else {
        AcquiredClosed(ctx.trackers, t, s, k, i, ctx.runState);
      }
      c := ctx.Acquire(s.subs[i].name);
    }

    /** Runs the `i`-th sub-section, whose tracker `c` has just been opened. */
    method RunChild(t: nat, s: Section, ghost k: nat, i: nat, c: nat) returns (events: seq<Event>)
      requires At(c, Executing) && Entered(ctx.trackers, t, s, k, i, c)
      modifies this, ctx
      ensures At(t, CompletedCycle)
      ensures Midway(ctx.trackers, t, s, k, i + 1) && OnlyBelow(old(ctx.trackers), ctx.trackers, t)
      ensures ctx.rootTracker == old(ctx.rootTracker) && activeSections == old(activeSections)
      ensures k < LeavesOf(s.subs) && events == Visit(PathIn(s.subs, k))
      decreases s, 0, 0
    {
      BeforeNext(s.subs, i);
      PathInAt(s.subs, i, k);
      EnteredMidway(ctx.trackers, t, s, k, i, c);
      events := RunSection(c, s.subs[i], k - Before(s.subs, i));
      ChildPassed(old(ctx.trackers), t, s, k, i, c, ctx.trackers);
    }
  }

  lemma EnteredMidway(ts: Trackers, t: nat, s: Section, k: nat, i: nat, c: nat)
    requires Entered(ts, t, s, k, i, c)
    ensures Midway(ts, c, s.subs[i], k - Before(s.subs, i), 0)
  {
    var sub, m := s.subs[i], k - Before(s.subs, i);
    BeforeNext(s.subs, i);
    BeforeAll(sub.subs);
  }

  /** Before cycle `k`: the root (0) has the test case (1) as its only child, except before the first. */
  ghost predicate BetweenCycles(ts: Trackers, s: Section, k: nat) {
    if k == 0 then ts == [Tracker("{root}", -1, [], Idle)]
    else
      && Wf(ts) && |ts| > 1 && ts[0] == Tracker("{root}", -1, [1], RunningChildren) && ts[1].parent == 0
      && Rep(ts, 1, s, k)
  }

  lemma TestAcquired(ts: Trackers, s: Section, k: nat)
    requires BetweenCycles(ts, s, k) && k < Leaves(s) && DistinctNames(s)
    ensures Wf(ts)
    ensures var (test, after, current) := Acquired(ts, 0, s.name, Executing);
            && test == 1 && current == 1 && Midway(after, 1, s, k, 0)
            && after[0] == Tracker("{root}", -1, [1], RunningChildren)
  {
    if k == 0 {
      FirstAcquired(ts, s);
    } else {
      RepParts(ts, 1, s, k);
      assert FindChild(ts, ts[0].children, s.name) == 0;
      var after := ts[1 := ts[1].(runState := Running)];
      assert Opened(ts, 1) == after;
      Reopened(ts, 1, s, k, after);
    }
  }

  lemma FirstAcquired(ts: Trackers, s: Section)
    requires BetweenCycles(ts, s, 0) && DistinctNames(s)
    ensures var (test, after, current) := Acquired(ts, 0, s.name, Executing);
            && test == 1 && current == 1 && Midway(after, 1, s, 0, 0)
            && after[0] == Tracker("{root}", -1, [1], RunningChildren)
  {
    BeforeAll(s.subs);
    var found := WithChild(ts, 0, s.name);
    var one := found[1 := found[1].(runState := Running)];
    assert Opened(found, 1) == one[0 := one[0].(runState := RunningChildren)];
  }

  lemma Reopened(ts: Trackers, x: nat, s: Section, k: nat, after: Trackers)
    requires Wf(ts) && Rep(ts, x, s, k) && 0 < k < Leaves(s) && DistinctNames(s)
    requires ts[x].parent >= 0 && ts[ts[x].parent].runState == RunningChildren
    requires after == ts[x := ts[x].(runState := Running)]
    ensures Midway(after, x, s, k, 0)
  {
    BeforeAll(s.subs);
    RepParts(ts, x, s, k);
    forall j | 0 <= j < |s.subs| ensures Kid(after, x, s, j, k) {
      assert Kid(ts, x, s, j, k);
      KidKept(ts, after, x, s, j, k);
    }
  }

  lemma RootUntouched(before: Trackers, after: Trackers)
    requires OnlyBelow(before, after, 1) && |before| > 1
    ensures after[0] == before[0] && after[1].parent == before[1].parent
  {
    assert !Below(before, 0, 1);
  }
}
