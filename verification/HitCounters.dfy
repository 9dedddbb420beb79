/** Occasional logging: every n-th visit of a source line writes. */
module HitCounters {
  import opened Division

  const MAX_LOG_PER_COUNTER := 100000

  /** The count after one more hit: it is folded back before it grows past its limit. */
  function NextCount(count: nat, n: nat): nat {
    (if count >= MAX_LOG_PER_COUNTER then if n >= 1 then MAX_LOG_PER_COUNTER % n else 0 else count) + 1
  }

  predicate Fires(count: nat, n: nat) {
    n >= 1 && count != 0 && count % n == 0
  }

  /** The count after `k` hits with the same `n`. */
  function Count(n: nat, k: nat): nat {
    if k == 0 then 0 else NextCount(Count(n, k - 1), n)
  }

  lemma SameRemainder(a: nat, b: nat, n: nat)
    requires n >= 1 && a % n == b % n
    ensures (a + 1) % n == (b + 1) % n
  {
    StepModulo(a, n);
    StepModulo(b, n);
  }

  /** Folding keeps the remainder, as long as `n` does not exceed the limit. */
  lemma {:induction false} CountKeepsRemainder(n: nat, k: nat)
    requires 1 <= n <= MAX_LOG_PER_COUNTER
    ensures Count(n, k) <= MAX_LOG_PER_COUNTER && (k > 0 ==> Count(n, k) > 0)
    ensures Count(n, k) % n == k % n
  {
    if k > 0 {
      var before := Count(n, k - 1);
      CountKeepsRemainder(n, k - 1);
      if before >= MAX_LOG_PER_COUNTER {
        Folded(n);
        SameRemainder(MAX_LOG_PER_COUNTER % n, k - 1, n);
      } else {
        SameRemainder(before, k - 1, n);
      }
    }
  }

  lemma Folded(n: nat)
    requires 1 <= n
    ensures MAX_LOG_PER_COUNTER % n % n == MAX_LOG_PER_COUNTER % n < n
  {
  }

  /** The k-th visit writes exactly if `n` divides `k`, for ever. */
  lemma EveryNth(n: nat, k: nat)
    requires 1 <= n <= MAX_LOG_PER_COUNTER && k > 0
    ensures Fires(Count(n, k), n) <==> k % n == 0
  {
    CountKeepsRemainder(n, k);
  }

  lemma {:induction false} CountBelowLimit(n: nat, k: nat)
    requires k <= MAX_LOG_PER_COUNTER
    ensures Count(n, k) == k
  {
    if k > 0 { CountBelowLimit(n, k - 1); }
  }

  lemma {:induction false} CountAboveLimit(n: nat, k: nat)
    requires n > MAX_LOG_PER_COUNTER && k > MAX_LOG_PER_COUNTER
    ensures Count(n, k) == MAX_LOG_PER_COUNTER + 1
  {
    assert MAX_LOG_PER_COUNTER % n == MAX_LOG_PER_COUNTER;
    if k == MAX_LOG_PER_COUNTER + 1 {
      CountBelowLimit(n, k - 1);
    } else {
      CountAboveLimit(n, k - 1);
    }
  }

  /** Beyond the limit it goes wrong: one more than the limit writes on every visit from there on,
      and a larger number never writes. */
  lemma BeyondTheLimit(n: nat, k: nat)
    requires n > MAX_LOG_PER_COUNTER && k > 0
    ensures Fires(Count(n, k), n) <==> n == MAX_LOG_PER_COUNTER + 1 && k >= n
  {
    var count := if k <= MAX_LOG_PER_COUNTER then k else MAX_LOG_PER_COUNTER + 1;
    if k <= MAX_LOG_PER_COUNTER { CountBelowLimit(n, k); } else { CountAboveLimit(n, k); }
    if count < n { Below(count, n); } else { DivideCarry(n, 0, 1); }
  }

  ghost predicate Right(n: nat, k: nat)
    requires n >= 1
  {
    Fires(Count(n, k), n) <==> k % n == 0
  }

  /** Every n-th visit, and no other, writes for ever: exactly for `n` up to the limit. */
  lemma EveryNthIff(n: nat)
    requires n >= 1
    ensures (forall k :: k > 0 ==> Right(n, k)) <==> n <= MAX_LOG_PER_COUNTER
  {
    if n <= MAX_LOG_PER_COUNTER {
      forall k | k > 0 ensures Right(n, k) { EveryNth(n, k); }
    } else {
      BeyondTheLimit(n, n);
      BeyondTheLimit(n, n + 1);
      DivideCarry(n, 1, 1);
      DivideCarry(n, 0, 1);
      assert !Right(n, n) || !Right(n, n + 1);
    }
  }

  /** The least such number, and the first visit on which it writes without being asked to. */
  lemma OneBeyondTheLimit()
    ensures Fires(Count(100001, 100002), 100001) && 100002 % 100001 != 0
  {
    BeyondTheLimit(100001, 100002);
  }

  datatype Location = Location(filename: string, lineNumber: nat)

  class HitCounter {
    const location: Location
    var hitCounts: nat

    constructor (location: Location)
      ensures this.location == location && hitCounts == 0
    {
      this.location, hitCounts := location, 0;
    }

    method ValidateHitCounts(n: nat)
      modifies this
      ensures hitCounts == NextCount(old(hitCounts), n)
    {
      if hitCounts >= MAX_LOG_PER_COUNTER {
        hitCounts := if n >= 1 then MAX_LOG_PER_COUNTER % n else 0;
      }
      hitCounts := hitCounts + 1;
    }
  }

  class RegisteredHitCounters {
    var list: seq<HitCounter>

    constructor ()
      ensures Valid() && list == []
    {
      list := [];
    }

    /** At most one counter for a source location. */
    ghost predicate Valid()
      reads this
    {
      forall i, j :: 0 <= i < j < |list| ==> list[i].location != list[j].location
    }

    ghost function Counts(): (counts: map<Location, nat>)
      requires Valid()
      reads this, list
    {
      map i | 0 <= i < |list| :: list[i].location := list[i].hitCounts
    }

    lemma CountsAre(counts: map<Location, nat>)
      requires Valid()
      requires forall i :: 0 <= i < |list| ==>
                 list[i].location in counts && counts[list[i].location] == list[i].hitCounts
      requires forall l :: l in counts ==> exists i :: 0 <= i < |list| && list[i].location == l
      ensures Counts() == counts
    {
    }

    /** `std::find_if`; the length stands for `end()`. */
    method Find(location: Location) returns (i: nat)
      ensures i <= |list| && (i < |list| ==> list[i].location == location)
      ensures forall j :: 0 <= j < i ==> list[j].location != location
    {
      i := 0;
      while i < |list| && list[i].location != location
        invariant i <= |list| && forall j :: 0 <= j < i ==> list[j].location != location
      {
        i := i + 1;
      }
    }

    method Register(location: Location)
      requires Valid() && forall i :: 0 <= i < |list| ==> list[i].location != location
      modifies this`list
      ensures Valid() && |list| == |old(list)| + 1 && Grown(old(list), list)
      ensures fresh(list[|old(list)|]) && Located(|old(list)|, location, old(Counts()))
    {
      ghost var before := Counts();
      var counter := new HitCounter(location);
      list := list + [counter];
      assert list[|old(list)|] == counter;
      forall l | l in before ensures exists i :: 0 <= i < |list| && list[i].location == l {
        var i :| 0 <= i < |old(list)| && old(list)[i].location == l;
        assert list[i].location == l;
      }
      CountsAre(before[location := 0]);
    }

    /** Counter `i` is the one of the location, and the others count what they did before. */
    ghost predicate Located(i: nat, location: Location, before: map<Location, nat>)
      requires Valid()
      reads this, list
    {
      && i < |list| && list[i].location == location && list[i].hitCounts == HitsAt(before, location)
      && Counts() == before[location := HitsAt(before, location)]
    }

    lemma IsLocated(i: nat)
      requires Valid() && i < |list|
      ensures Located(i, list[i].location, Counts())
    {
      UpdateSame(Counts(), list[i].location);
    }

    /** The counter of a location, which is registered if it is new. */
    method Locate(location: Location) returns (i: nat)
      requires Valid()
      modifies this`list
      ensures Valid() && Located(i, location, old(Counts()))
      ensures list == old(list) || (|list| == |old(list)| + 1 && Grown(old(list), list) && fresh(list[|old(list)|]))
    {
      i := FindLocated(location);
      if i < |list| { return; }
      Register(location);
    }

    method FindLocated(location: Location) returns (i: nat)
      requires Valid()
      ensures i <= |list| && (i < |list| ==> Located(i, location, Counts()))
      ensures i == |list| ==> forall j :: 0 <= j < |list| ==> list[j].location != location
    {
      i := Find(location);
      if i < |list| { IsLocated(i); }
    }

    method Hit(i: nat, n: nat)
      requires Valid() && i < |list|
      modifies list[i]
      ensures list[i].location in old(Counts()) && old(Counts())[list[i].location] == old(list[i].hitCounts)
      ensures Counts() == old(Counts())[list[i].location := NextCount(old(list[i].hitCounts), n)]
      ensures list[i].hitCounts == NextCount(old(list[i].hitCounts), n)
    {
      ghost var before := Counts();
      list[i].ValidateHitCounts(n);
      CountsAre(before[list[i].location := list[i].hitCounts]);
    }

    /** One more hit at the location; the other counters stay as they are. */
    method ValidateEveryN(location: Location, n: nat) returns (result: bool)
      requires Valid()
      modifies this`list, list
      ensures Valid()
      ensures list == old(list) || (|list| == |old(list)| + 1 && Grown(old(list), list) && fresh(list[|old(list)|]))
      ensures Counts() == old(Counts())[location := NextCount(HitsAt(old(Counts()), location), n)]
      ensures result == Fires(NextCount(HitsAt(old(Counts()), location), n), n)
    {
      ghost var hits := HitsAt(Counts(), location);
      UpdateTwice(Counts(), location, hits, NextCount(hits, n));
      var i := Locate(location);
      Hit(i, n);
      var counter := list[i];
      result := n >= 1 && counter.hitCounts != 0 && counter.hitCounts % n == 0;
    }
  }

  lemma UpdateTwice(counts: map<Location, nat>, location: Location, a: nat, b: nat)
    ensures counts[location := a][location := b] == counts[location := b]
  {
  }

  lemma UpdateSame(counts: map<Location, nat>, location: Location)
    requires location in counts
    ensures counts[location := counts[location]] == counts
  {
  }

  ghost function HitsAt(counts: map<Location, nat>, location: Location): nat {
    if location in counts then counts[location] else 0
  }

  datatype Call = Call(location: Location, n: nat)

  /** How many of the first `k` calls came from a location. */
  function Hits(calls: seq<Call>, location: Location, k: nat): nat
    requires k <= |calls|
  {
    if k == 0 then 0 else Hits(calls, location, k - 1) + if calls[k - 1].location == location then 1 else 0
  }

  /** What the counter of a location shows after the first `k` calls: each visit folds by its own `n`. */
  function CountAfter(calls: seq<Call>, location: Location, k: nat): nat
    requires k <= |calls|
  {
    if k == 0 then 0
    else if calls[k - 1].location == location then NextCount(CountAfter(calls, location, k - 1), calls[k - 1].n)
    else CountAfter(calls, location, k - 1)
  }

  /** All visits of a location among the first `k` calls asked with the same `n`. */
  ghost predicate SameN(calls: seq<Call>, location: Location, n: nat, k: nat)
    requires k <= |calls|
  {
    forall j :: 0 <= j < k && calls[j].location == location ==> calls[j].n == n
  }

  lemma {:induction false} CountOfSameN(calls: seq<Call>, location: Location, n: nat, k: nat)
    requires k <= |calls| && SameN(calls, location, n, k)
    ensures CountAfter(calls, location, k) == Count(n, Hits(calls, location, k))
  {
    if k > 0 { CountOfSameN(calls, location, n, k - 1); }
  }

  /** Up to the limit nothing is folded, so the counter counts whatever the numbers asked with. */
  lemma {:induction false} CountOfFew(calls: seq<Call>, location: Location, k: nat)
    requires k <= |calls| && Hits(calls, location, k) <= MAX_LOG_PER_COUNTER
    ensures CountAfter(calls, location, k) == Hits(calls, location, k)
  {
    if k > 0 { CountOfFew(calls, location, k - 1); }
  }

  ghost predicate Counted(counts: map<Location, nat>, calls: seq<Call>, k: nat)
    requires k <= |calls|
  {
    forall location :: HitsAt(counts, location) == CountAfter(calls, location, k)
  }

  lemma CountedNext(counts: map<Location, nat>, calls: seq<Call>, k: nat)
    requires k < |calls| && Counted(counts, calls, k)
    ensures var here := calls[k].location;
            Counted(counts[here := NextCount(HitsAt(counts, here), calls[k].n)], calls, k + 1)
  {
    var here := calls[k].location;
    var after := counts[here := NextCount(HitsAt(counts, here), calls[k].n)];
    forall location ensures HitsAt(after, location) == CountAfter(calls, location, k + 1) {
      assert HitsAt(counts, location) == CountAfter(calls, location, k);
    }
  }

  /** However the calls of different locations interleave, a call fires exactly if its own `n` divides
      the count of its location; which is every n-th visit if the location has always asked with this
      `n` up to the limit, and also with changing `n` while its visits do not exceed the limit. */
  method RunCalls(calls: seq<Call>) returns (fired: seq<bool>)
    ensures |fired| == |calls| && AllFired(calls, fired)
    ensures forall i :: 0 <= i < |calls| ==> FiredRightly(calls, i, fired[i])
  {
    var counters := new RegisteredHitCounters();
    fired := [];
    var k := 0;
    while k < |calls|
      invariant 0 <= k <= |calls| && |fired| == k
      invariant fresh(counters) && forall i :: 0 <= i < |counters.list| ==> fresh(counters.list[i])
      invariant counters.Valid() && Counted(counters.Counts(), calls, k)
      invariant AllFired(calls, fired)
    {
      var result := RunCall(counters, calls, k);
      AllFiredNext(calls, fired, result);
      fired := fired + [result];
      k := k + 1;
    }
    forall i | 0 <= i < |calls| ensures FiredRightly(calls, i, fired[i]) {
      WhenFired(calls, i);
    }
  }

  ghost predicate AllFired(calls: seq<Call>, fired: seq<bool>) {
    |fired| <= |calls| && forall i :: 0 <= i < |fired| ==> fired[i] == FiresAt(calls, i)
  }

  predicate FiresAt(calls: seq<Call>, i: nat)
    requires i < |calls|
  {
    Fires(CountAfter(calls, calls[i].location, i + 1), calls[i].n)
  }

  lemma AllFiredNext(calls: seq<Call>, fired: seq<bool>, result: bool)
    requires AllFired(calls, fired) && |fired| < |calls| && result == FiresAt(calls, |fired|)
    ensures AllFired(calls, fired + [result])
  {
  }

  /** The old counters are still there, in front of new ones. */
  ghost predicate Grown(before: seq<HitCounter>, after: seq<HitCounter>) {
    before <= after
  }

  ghost predicate FiredRightly(calls: seq<Call>, i: nat, fired: bool)
    requires i < |calls|
  {
    var n, location := calls[i].n, calls[i].location;
    && (n == 0 ==> !fired)
    && (n >= 1 && (Hits(calls, location, i + 1) <= MAX_LOG_PER_COUNTER
                   || (n <= MAX_LOG_PER_COUNTER && SameN(calls, location, n, i + 1))) ==>
          (fired <==> Hits(calls, location, i + 1) % n == 0))
  }

  lemma WhenFired(calls: seq<Call>, i: nat)
    requires i < |calls|
    ensures FiredRightly(calls, i, FiresAt(calls, i))
  {
    var n, location := calls[i].n, calls[i].location;
    var hits := Hits(calls, location, i + 1);
    if n >= 1 && hits <= MAX_LOG_PER_COUNTER {
      CountOfFew(calls, location, i + 1);
    } else if 1 <= n <= MAX_LOG_PER_COUNTER && SameN(calls, location, n, i + 1) {
      CountOfSameN(calls, location, n, i + 1);
      EveryNth(n, hits);
    }
  }

  method RunCall(counters: RegisteredHitCounters, calls: seq<Call>, k: nat) returns (result: bool)
    requires counters.Valid() && k < |calls| && Counted(counters.Counts(), calls, k)
    modifies counters`list, counters.list
    ensures counters.Valid() && Counted(counters.Counts(), calls, k + 1) && result == FiresAt(calls, k)
    ensures counters.list == old(counters.list) ||
            (|counters.list| == |old(counters.list)| + 1 && Grown(old(counters.list), counters.list)
             && fresh(counters.list[|old(counters.list)|]))
  {
    CountedNext(counters.Counts(), calls, k);
    assert HitsAt(counters.Counts(), calls[k].location) == CountAfter(calls, calls[k].location, k);
    result := counters.ValidateEveryN(calls[k].location, calls[k].n);
  }
}
