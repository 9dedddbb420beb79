/** The generators of a test case, advanced together after every run. */
module Generators {
  import opened Division
  import opened Odometer

  const SIZE_SPAN := 0x1_0000_0000_0000_0000

  /** How many indices a generator goes through: with size zero, the index has to wrap around. */
  function Span(size: nat): (r: nat)
    ensures r > 0
  {
    if size == 0 then SIZE_SPAN else size
  }

  class GeneratorInfo {
    const size: nat
    ghost const place: nat
    var currentIndex: nat

    /** `place` is where the generator stands in the order of its test, so no generator stands twice. */
    constructor (size: nat, ghost place: nat)
      ensures this.size == size && this.place == place && currentIndex == 0
    {
      this.size, this.place, currentIndex := size, place, 0;
    }

    ghost predicate Valid()
      reads this
    {
      size < SIZE_SPAN && currentIndex < Span(size)
    }

    method MoveNext() returns (moved: bool)
      requires Valid()
      modifies this`currentIndex
      ensures Valid() && moved == (old(currentIndex) + 1 < Span(size))
      ensures currentIndex == if moved then old(currentIndex) + 1 else 0
    {
      currentIndex := (currentIndex + 1) % SIZE_SPAN;
      if currentIndex == size {
        currentIndex := 0;
        return false;
      }
      return true;
    }
  }

  ghost function Sizes(infos: seq<GeneratorInfo>): (sizes: seq<nat>)
    ensures |sizes| == |infos| && forall i :: 0 <= i < |infos| ==> sizes[i] == Span(infos[i].size)
  {
    seq(|infos|, i requires 0 <= i < |infos| => Span(infos[i].size))
  }

  ghost function Indices(infos: seq<GeneratorInfo>): (digits: seq<nat>)
    reads infos
    ensures |digits| == |infos| && forall i :: 0 <= i < |infos| ==> digits[i] == infos[i].currentIndex
  {
    seq(|infos|, i requires 0 <= i < |infos| reads infos => infos[i].currentIndex)
  }

  class GeneratorsForTest {
    var generatorsByName: map<string, GeneratorInfo>
    var generatorsInOrder: seq<GeneratorInfo>
    ghost var Repr: set<GeneratorInfo>

    constructor ()
      ensures Valid() && generatorsInOrder == [] && generatorsByName == map[] && Repr == {}
    {
      generatorsByName, generatorsInOrder, Repr := map[], [], {};
    }

    ghost predicate Valid()
      reads this, generatorsInOrder
    {
      && (forall i :: 0 <= i < |generatorsInOrder| ==> Listed(generatorsInOrder[i], i))
      && (forall name :: name in generatorsByName ==> generatorsByName[name] in generatorsInOrder)
    }

    ghost predicate Listed(info: GeneratorInfo, place: nat)
      reads this, info
    {
      info.Valid() && info.place == place && info in Repr
    }

    ghost function Counter(): nat
      reads this, generatorsInOrder
    {
      Value(Sizes(generatorsInOrder), Indices(generatorsInOrder))
    }

    /** A name known already keeps its generator, whatever size is asked for; a new one starts at zero
        in the last place, which leaves the counter where it was. */
    method GetGeneratorInfo(fileInfo: string, size: nat) returns (info: GeneratorInfo)
      requires Valid() && size < SIZE_SPAN
      modifies this
      ensures Valid() && fileInfo in generatorsByName && generatorsByName[fileInfo] == info
      ensures fileInfo in old(generatorsByName) ==>
                generatorsByName == old(generatorsByName) && generatorsInOrder == old(generatorsInOrder) &&
                    Repr == old(Repr)
      ensures fileInfo !in old(generatorsByName) ==>
                && fresh(info) && info.size == size && info.currentIndex == 0 && Repr == old(Repr) + {info}
                && generatorsByName == old(generatorsByName)[fileInfo := info]
                && generatorsInOrder == old(generatorsInOrder) + [info]
      ensures Counter() == old(Counter())
    {
      if fileInfo !in generatorsByName {
        info := new GeneratorInfo(size, |generatorsInOrder|);
        generatorsByName, Repr := generatorsByName[fileInfo := info], Repr + {info};
        Append(info);
        return;
      }
      info := generatorsByName[fileInfo];
    }

    method Append(info: GeneratorInfo)
      requires info.currentIndex == 0
      modifies this`generatorsInOrder
      ensures generatorsInOrder == old(generatorsInOrder) + [info] && Counter() == old(Counter())
    {
      Joined(generatorsInOrder, info);
      generatorsInOrder := generatorsInOrder + [info];
    }

    method MoveNext() returns (moved: bool)
      requires Valid()
      modifies generatorsInOrder
      ensures Valid()
      ensures (Indices(generatorsInOrder), moved) == Next(Sizes(generatorsInOrder), old(Indices(generatorsInOrder)))
      ensures exists i :: 0 <= i <= |generatorsInOrder| && (moved <==> i < |generatorsInOrder|) &&
                          MovedAt(generatorsInOrder, old(Indices(generatorsInOrder)), i)
    {
      var i := 0;
      ghost var digits := Indices(generatorsInOrder);
      while i < |generatorsInOrder|
        invariant 0 <= i <= |generatorsInOrder| && Valid() && Carried(generatorsInOrder, digits, i)
      {
        var ok := MoveOne(digits, i);
        if ok {
          assert MovedAt(generatorsInOrder, digits, i);
          return true;
        }
        i := i + 1;
      }
      Moved(generatorsInOrder, digits, i);
      assert MovedAt(generatorsInOrder, digits, i);
      return false;
    }

    method MoveOne(ghost digits: seq<nat>, i: nat) returns (ok: bool)
      requires Valid() && i < |generatorsInOrder| == |digits| && Carried(generatorsInOrder, digits, i)
      modifies generatorsInOrder
      ensures Valid()
      ensures ok ==> (Indices(generatorsInOrder), true) == Next(Sizes(generatorsInOrder), digits)
      ensures ok ==> MovedAt(generatorsInOrder, digits, i)
      ensures !ok ==> Carried(generatorsInOrder, digits, i + 1)
    {
      ok := generatorsInOrder[i].MoveNext();
      if ok { Moved(generatorsInOrder, digits, i); }
    }

    /** The generators are those of `known`, in that order. */
    ghost predicate Holds(known: seq<Use>)
      reads this
    {
      && |generatorsInOrder| == |known|
      && (forall p {:trigger known[p]} :: 0 <= p < |known| ==>
            && known[p].fileInfo in generatorsByName && generatorsByName[known[p].fileInfo] == generatorsInOrder[p]
            && generatorsInOrder[p].size == known[p].size)
      && forall name :: name in generatorsByName ==> Knows(known, name)
    }

    /** The generators are those of `known`, standing at `digits`. */
    ghost predicate At(known: seq<Use>, digits: seq<nat>)
      reads this, generatorsInOrder
    {
      Valid() && Holds(known) && Indices(generatorsInOrder) == digits
    }

    /** Before the `k`-th run of a test, counted from zero; before the first no generator is registered. */
    ghost predicate Ready(uses: seq<Use>, k: nat)
      reads this, generatorsInOrder
    {
      if k == 0 then At([], []) else At(AllOf(uses), State(Spans(AllOf(uses)), k))
    }

    /** The index a run sees where it uses a generator, which is registered if it is new. */
    method GetGeneratorIndex(use: Use, ghost known: seq<Use>, ghost digits: seq<nat>) returns (index: nat)
      requires At(known, digits) && use.size < SIZE_SPAN
      modifies this
      ensures At(Join(known, use), JoinDigits(known, digits, use))
      ensures Shows(Join(known, use), use, JoinDigits(known, digits, use), index)
      ensures old(Repr) <= Repr && fresh(Repr - old(Repr))
    {
      ghost var infos := generatorsInOrder;
      var info := GetGeneratorInfo(use.fileInfo, use.size);
      assert Indices(infos) == digits;
      if Knows(known, use.fileInfo) {
        FoundAt(use, known, digits);
      } else {
        assert generatorsInOrder == infos + [info];
        JoinedHolds(use, known, infos, info);
        AppendedIndices(infos, info);
        ShowsLast(known, use, digits);
      }
      return info.currentIndex;
    }

    lemma FoundAt(use: Use, known: seq<Use>, digits: seq<nat>)
      requires Holds(known) && Knows(known, use.fileInfo) && digits == Indices(generatorsInOrder)
      ensures use.fileInfo in generatorsByName
      ensures Shows(known, use, digits, generatorsByName[use.fileInfo].currentIndex)
    {
      var p :| 0 <= p < |known| && known[p].fileInfo == use.fileInfo;
      assert digits[p] == generatorsByName[use.fileInfo].currentIndex;
    }

    lemma JoinedHolds(use: Use, known: seq<Use>, infos: seq<GeneratorInfo>, info: GeneratorInfo)
      requires |infos| == |known| && !Knows(known, use.fileInfo) && info.size == use.size
      requires generatorsInOrder == infos + [info] && use.fileInfo in generatorsByName &&
               generatorsByName[use.fileInfo] == info
      requires forall p :: 0 <= p < |known| ==>
                 && known[p].fileInfo in generatorsByName && generatorsByName[known[p].fileInfo] == infos[p]
                 && infos[p].size == known[p].size
      requires forall name :: name in generatorsByName ==> name == use.fileInfo || Knows(known, name)
      ensures Holds(known + [use])
    {
      var joined := known + [use];
      forall name | name in generatorsByName ensures Knows(joined, name) {
        if Knows(known, name) {
          var p :| 0 <= p < |known| && known[p].fileInfo == name;
          assert joined[p].fileInfo == name;
        } else {
          assert joined[|known|].fileInfo == name;
        }
      }
    }

    /** After `k` of the uses of a run that began with generators `known` at `digits`. */
    ghost predicate Using(uses: seq<Use>, k: nat, known: seq<Use>, digits: seq<nat>, after: seq<nat>,
                          values: seq<nat>)
      requires k <= |uses|
      reads this, generatorsInOrder
    {
      At(Registered(known, uses, k), after) && UsedSoFar(known, uses, k, digits, after, values)
    }

    /** One run of the test: it uses its generators, one after the other. */
    method RunBody(uses: seq<Use>, ghost known: seq<Use>, ghost digits: seq<nat>)
      returns (values: seq<nat>, ghost after: seq<nat>)
      requires At(known, digits) && Registrable(uses)
      modifies this
      ensures At(Registered(known, uses, |uses|), after) && WithZeros(digits, after)
      ensures Shown(Registered(known, uses, |uses|), uses, after, values)
      ensures old(Repr) <= Repr && fresh(Repr - old(Repr))
    {
      values, after := RunUses(uses, |uses|, known, digits);
      assert uses[..|uses|] == uses;
    }

    /** The first `k` uses of the run. */
    method RunUses(uses: seq<Use>, k: nat, ghost known: seq<Use>, ghost digits: seq<nat>)
      returns (values: seq<nat>, ghost after: seq<nat>)
      requires k <= |uses| && Registrable(uses) && At(known, digits)
      modifies this
      ensures Using(uses, k, known, digits, after, values)
      ensures old(Repr) <= Repr && fresh(Repr - old(Repr))
    {
      if k == 0 {
        StartsUsing(uses, known, digits);
        return [], digits;
      }
      values, after := RunUses(uses, k - 1, known, digits);
      values, after := UseNext(uses, k - 1, known, digits, after, values);
    }

    lemma StartsUsing(uses: seq<Use>, known: seq<Use>, digits: seq<nat>)
      requires At(known, digits)
      ensures Using(uses, 0, known, digits, digits, [])
    {
    }

    /** One use within the run. */
    method UseNext(uses: seq<Use>, k: nat, ghost known: seq<Use>, ghost digits: seq<nat>, ghost before: seq<nat>,
                   seen: seq<nat>)
      returns (values: seq<nat>, ghost after: seq<nat>)
      requires k < |uses| && Registrable(uses) && Using(uses, k, known, digits, before, seen)
      modifies this
      ensures Using(uses, k + 1, known, digits, after, values)
      ensures old(Repr) <= Repr && fresh(Repr - old(Repr))
    {
      ghost var here := Registered(known, uses, k);
      after := JoinDigits(here, before, uses[k]);
      var index := GetGeneratorIndex(uses[k], here, before);
      UsedNext(known, uses, k, digits, before, seen, index);
      values := seen + [index];
    }

    /** `do runCurrentTest(...) while (advanceGeneratorsForCurrentTest())`, one turn of it. */
    method RunOnce(uses: seq<Use>, ghost k: nat) returns (run: seq<nat>, values: seq<nat>, more: bool)
      requires Registrable(uses) && k < Product(Spans(AllOf(uses)))
      requires Ready(uses, k)
      modifies this, Repr
      ensures run == State(Spans(AllOf(uses)), k) && Shown(AllOf(uses), uses, run, values)
      ensures more <==> k + 1 < Product(Spans(AllOf(uses)))
      ensures more ==> Ready(uses, k + 1)
      ensures old(Repr) <= Repr && fresh(Repr - old(Repr))
    {
      run, values := RunCurrentTest(uses, k);
      more := Advance(AllOf(uses), k);
    }

    /** The run itself; behind it all generators of the test are registered. */
    method RunCurrentTest(uses: seq<Use>, ghost k: nat) returns (run: seq<nat>, values: seq<nat>)
      requires Registrable(uses)
      requires Ready(uses, k)
      modifies this
      ensures At(AllOf(uses), State(Spans(AllOf(uses)), k))
      ensures run == State(Spans(AllOf(uses)), k) && Shown(AllOf(uses), uses, run, values)
      ensures old(Repr) <= Repr && fresh(Repr - old(Repr))
    {
      ghost var known, digits, after := [], [], [];
      if k > 0 { known, digits := AllOf(uses), State(Spans(AllOf(uses)), k); }
      NothingNew(uses, |uses|);
      values, after := RunBody(uses, known, digits);
      run := CurrentIndices();
      StartsAtZero(AllOf(uses), digits, after, k);
    }

    /** The generators move on, or have been through all of their states. */
    method Advance(ghost known: seq<Use>, ghost k: nat) returns (more: bool)
      requires At(known, State(Spans(known), k)) && k < Product(Spans(known))
      modifies generatorsInOrder
      ensures more <==> k + 1 < Product(Spans(known))
      ensures At(known, if more then State(Spans(known), k + 1) else Zeros(|known|))
    {
      SizesOfKnown(generatorsInOrder, known);
      NextTurn(Spans(known), k);
      more := MoveNext();
    }

    /** What a run of the test sees. */
    method CurrentIndices() returns (indices: seq<nat>)
      ensures indices == Indices(generatorsInOrder)
    {
      indices := [];
      for i := 0 to |generatorsInOrder|
        invariant |indices| == i && forall j :: 0 <= j < i ==> indices[j] == generatorsInOrder[j].currentIndex
      {
        indices := indices + [generatorsInOrder[i].currentIndex];
      }
    }
  }

  /** A place in the test that uses a generator. */
  datatype Use = Use(fileInfo: string, size: nat)

  predicate Knows(known: seq<Use>, name: string) {
    exists p :: 0 <= p < |known| && known[p].fileInfo == name
  }

  function Join(known: seq<Use>, use: Use): seq<Use> {
    if Knows(known, use.fileInfo) then known else known + [use]
  }

  function JoinDigits(known: seq<Use>, digits: seq<nat>, use: Use): seq<nat> {
    if Knows(known, use.fileInfo) then digits else digits + [0]
  }

  /** The generators known after the first `k` uses of a run: the first use of a name says the size. */
  function Registered(known: seq<Use>, uses: seq<Use>, k: nat): seq<Use>
    requires k <= |uses|
  {
    if k == 0 then known else Join(Registered(known, uses, k - 1), uses[k - 1])
  }

  /** The generators of a test. */
  function AllOf(uses: seq<Use>): seq<Use> {
    Registered([], uses, |uses|)
  }

  predicate Registrable(uses: seq<Use>) {
    forall k :: 0 <= k < |uses| ==> uses[k].size < SIZE_SPAN
  }

  function Spans(known: seq<Use>): (sizes: seq<nat>)
    ensures |sizes| == |known| && forall p :: 0 <= p < |known| ==> sizes[p] == Span(known[p].size) > 0
  {
    seq(|known|, p requires 0 <= p < |known| => Span(known[p].size))
  }

  /** `index` is what the tuple of all indices holds for the generator used. */
  ghost predicate Shows(known: seq<Use>, use: Use, digits: seq<nat>, index: nat) {
    |digits| == |known| && exists p :: 0 <= p < |known| && known[p].fileInfo == use.fileInfo && digits[p] == index
  }

  ghost predicate Shown(known: seq<Use>, uses: seq<Use>, digits: seq<nat>, values: seq<nat>) {
    |digits| == |known| && |values| == |uses| && forall i :: 0 <= i < |uses| ==>
        Shows(known, uses[i], digits, values[i])
  }

  /** What a run has seen after `k` of its uses, since the generators stood at `digits`. */
  ghost predicate UsedSoFar(known: seq<Use>, uses: seq<Use>, k: nat, digits: seq<nat>, after: seq<nat>,
                            values: seq<nat>)
    requires k <= |uses|
  {
    WithZeros(digits, after) && Shown(Registered(known, uses, k), uses[..k], after, values)
  }

  lemma UsedNext(known: seq<Use>, uses: seq<Use>, k: nat, digits: seq<nat>, before: seq<nat>, values: seq<nat>,
                 index: nat)
    requires k < |uses| && UsedSoFar(known, uses, k, digits, before, values)
    requires var here := Registered(known, uses, k);
             Shows(Join(here, uses[k]), uses[k], JoinDigits(here, before, uses[k]), index)
    ensures UsedSoFar(known, uses, k + 1, digits, JoinDigits(Registered(known, uses, k), before, uses[k]),
                      values + [index])
  {
    var here := Registered(known, uses, k);
    var joined, after := Join(here, uses[k]), JoinDigits(here, before, uses[k]);
    forall i | 0 <= i < k ensures Shows(joined, uses[i], after, values[i]) {
      assert uses[..k][i] == uses[i];
      var p :| 0 <= p < |here| && here[p].fileInfo == uses[i].fileInfo && before[p] == values[i];
      assert joined[p].fileInfo == uses[i].fileInfo && after[p] == values[i];
    }
  }

  /** New generators stand behind the old ones, at zero. */
  ghost predicate WithZeros(before: seq<nat>, after: seq<nat>) {
    before <= after && forall i :: |before| <= i < |after| ==> after[i] == 0
  }

  lemma AppendedIndices(infos: seq<GeneratorInfo>, info: GeneratorInfo)
    requires info.currentIndex == 0
    ensures Indices(infos + [info]) == Indices(infos) + [0]
  {
  }

  lemma ShowsLast(known: seq<Use>, use: Use, digits: seq<nat>)
    requires |digits| == |known|
    ensures Shows(known + [use], use, digits + [0], 0)
  {
    assert (known + [use])[|known|] == use && (digits + [0])[|known|] == 0;
  }

  lemma {:induction false} KnownStays(known: seq<Use>, uses: seq<Use>, j: nat, k: nat)
    requires j <= k <= |uses|
    ensures Registered(known, uses, j) <= Registered(known, uses, k)
    ensures j < k ==> Knows(Registered(known, uses, k), uses[j].fileInfo)
  {
    if j < k {
      KnownStays(known, uses, j, k - 1);
      var before, after := Registered(known, uses, k - 1), Registered(known, uses, k);
      var last := uses[k - 1];
      if Knows(before, last.fileInfo) {
        assert after == before;
      } else {
        assert after == before + [last] && after[|before|].fileInfo == last.fileInfo;
        if j < k - 1 {
          var p :| 0 <= p < |before| && before[p].fileInfo == uses[j].fileInfo;
          assert after[p].fileInfo == uses[j].fileInfo;
        }
      }
    }
  }

  /** Each name has one generator, so a use has one place in the tuple. */
  lemma {:induction false} KnownOnce(uses: seq<Use>, k: nat)
    requires k <= |uses|
    ensures forall p, q :: 0 <= p < q < |Registered([], uses, k)| ==>
              Registered([], uses, k)[p].fileInfo != Registered([], uses, k)[q].fileInfo
  {
    if k > 0 { KnownOnce(uses, k - 1); }
  }

  /** A second run registers nothing. */
  lemma {:induction false} NothingNew(uses: seq<Use>, k: nat)
    requires k <= |uses|
    ensures Registered(AllOf(uses), uses, k) == AllOf(uses)
  {
    if k > 0 {
      NothingNew(uses, k - 1);
      KnownStays([], uses, k - 1, |uses|);
    }
  }

  lemma SizesOfKnown(infos: seq<GeneratorInfo>, known: seq<Use>)
    requires |infos| == |known| && forall p :: 0 <= p < |known| ==> infos[p].size == known[p].size
    ensures Sizes(infos) == Spans(known) && AllPositive(Sizes(infos))
  {
  }

  /** The first run finds all generators at zero, which is where the counting starts. */
  lemma StartsAtZero(known: seq<Use>, before: seq<nat>, after: seq<nat>, k: nat)
    requires WithZeros(before, after) && |after| == |known|
    requires before == if k == 0 then [] else State(Spans(known), k)
    ensures after == State(Spans(known), k)
  {
    Counts(Spans(known), k);
    if k == 0 { assert after == Zeros(|known|); }
  }

  /** Running a test until no generator moves, generators being registered where the test first uses
      them: each tuple of indices is seen at exactly one turn, and every use shows its place in the tuple. */
  method RunTest(uses: seq<Use>) returns (seen: seq<seq<nat>>, values: seq<seq<nat>>)
    requires Registrable(uses)
    ensures |seen| == |values| == Product(Spans(AllOf(uses))) && EachOnce(Spans(AllOf(uses)), seen)
    ensures forall k :: 0 <= k < |seen| ==> Shown(AllOf(uses), uses, seen[k], values[k])
  {
    var generators := new GeneratorsForTest();
    seen, values := [], [];
    var more := true;
    SomeRun(AllOf(uses));
    while more
      invariant fresh(generators) && fresh(generators.Repr) && Progress(generators, uses, seen, values, more)
      decreases Product(Spans(AllOf(uses))) - |seen|, more
    {
      seen, values, more := NextRun(generators, uses, seen, values);
    }
    SeenOnce(Spans(AllOf(uses)), seen);
  }

  /** Where a test stands: before its next run, or behind its last. */
  ghost predicate Progress(generators: GeneratorsForTest, uses: seq<Use>, seen: seq<seq<nat>>,
                           values: seq<seq<nat>>, more: bool)
    reads generators, generators.generatorsInOrder
  {
    && SoFar(uses, seen, values) && |seen| <= Product(Spans(AllOf(uses)))
    && (more <==> |seen| < Product(Spans(AllOf(uses))))
    && (more ==> generators.Ready(uses, |seen|))
  }

  method NextRun(generators: GeneratorsForTest, uses: seq<Use>, before: seq<seq<nat>>, shown: seq<seq<nat>>)
    returns (seen: seq<seq<nat>>, values: seq<seq<nat>>, more: bool)
    requires Registrable(uses) && Progress(generators, uses, before, shown, true)
    modifies generators, generators.Repr
    ensures Progress(generators, uses, seen, values, more) && |seen| == |before| + 1
    ensures fresh(generators.Repr - old(generators.Repr))
  {
    var run, last;
    run, last, more := generators.RunOnce(uses, |before|);
    SeenNext(uses, before, shown, run, last);
    seen, values := before + [run], shown + [last];
  }

  ghost predicate SoFar(uses: seq<Use>, seen: seq<seq<nat>>, values: seq<seq<nat>>) {
    && |values| == |seen| && seen == States(Spans(AllOf(uses)), |seen|)
    && forall k :: 0 <= k < |seen| ==> Shown(AllOf(uses), uses, seen[k], values[k])
  }

  lemma SeenNext(uses: seq<Use>, seen: seq<seq<nat>>, values: seq<seq<nat>>, run: seq<nat>, shown: seq<nat>)
    requires SoFar(uses, seen, values)
    requires run == State(Spans(AllOf(uses)), |seen|) && Shown(AllOf(uses), uses, run, shown)
    ensures SoFar(uses, seen + [run], values + [shown])
  {
  }

  lemma SomeRun(known: seq<Use>)
    ensures AllPositive(Spans(known)) && Product(Spans(known)) > 0
  {
    Counts(Spans(known), 0);
  }

  /** The generators in front of `i` have wrapped, the others not moved. */
  ghost predicate Carried(infos: seq<GeneratorInfo>, digits: seq<nat>, i: nat)
    requires |digits| == |infos|
    reads infos
  {
    && (forall j :: 0 <= j < i && j < |infos| ==> digits[j] + 1 == Span(infos[j].size) && infos[j].currentIndex == 0)
    && (forall j :: i <= j < |infos| ==> infos[j].currentIndex == digits[j])
  }

  /** The first generators, up to `i`, were at their last index and start over, the next one moves on, if
      there is one, and those behind it stay. */
  ghost predicate MovedAt(infos: seq<GeneratorInfo>, digits: seq<nat>, i: nat)
    reads infos
  {
    && |digits| == |infos| && i <= |infos|
    && (forall j :: 0 <= j < i ==> digits[j] + 1 == Span(infos[j].size) && infos[j].currentIndex == 0)
    && (i < |infos| ==> digits[i] + 1 < Span(infos[i].size) && infos[i].currentIndex == digits[i] + 1)
    && (forall j :: i < j < |infos| ==> infos[j].currentIndex == digits[j])
  }

  lemma Moved(infos: seq<GeneratorInfo>, digits: seq<nat>, i: nat)
    requires |digits| == |infos| && i <= |infos|
    requires forall j :: 0 <= j < i ==> digits[j] + 1 == Span(infos[j].size) && infos[j].currentIndex == 0
    requires i < |infos| ==> digits[i] + 1 != Span(infos[i].size) && infos[i].currentIndex == digits[i] + 1
    requires forall j :: i < j < |infos| ==> infos[j].currentIndex == digits[j]
    ensures (Indices(infos), i < |infos|) == Next(Sizes(infos), digits)
  {
    NextIs(Sizes(infos), digits, i, Indices(infos));
  }

  lemma NextTurn(sizes: seq<nat>, k: nat)
    requires AllPositive(sizes) && k < Product(sizes)
    ensures Next(sizes, State(sizes, k)) ==
              if k + 1 < Product(sizes) then (State(sizes, k + 1), true) else (Zeros(|sizes|), false)
  {
    Counts(sizes, k);
    Below(k, Product(sizes));
    NextAddsOne(sizes, State(sizes, k));
    ValueBound(sizes, Next(sizes, State(sizes, k)).0);
  }

  function States(sizes: seq<nat>, n: nat): (states: seq<seq<nat>>)
    ensures |states| == n && forall k :: 0 <= k < n ==> states[k] == State(sizes, k)
  {
    if n == 0 then [] else States(sizes, n - 1) + [State(sizes, n - 1)]
  }

  /** Every tuple that fits is seen at one place and no other: at its value. */
  ghost predicate EachOnce(sizes: seq<nat>, seen: seq<seq<nat>>) {
    && (forall k :: 0 <= k < |seen| ==> Fit(sizes, seen[k]) && Value(sizes, seen[k]) == k)
    && (forall digits :: Fit(sizes, digits) ==> Value(sizes, digits) < |seen| && seen[Value(sizes, digits)] == digits)
  }

  lemma SeenOnce(sizes: seq<nat>, seen: seq<seq<nat>>)
    requires AllPositive(sizes) && |seen| == Product(sizes) && seen == States(sizes, |seen|)
    ensures EachOnce(sizes, seen)
  {
    forall k | 0 <= k < |seen| ensures Fit(sizes, seen[k]) && Value(sizes, seen[k]) == k {
      Counts(sizes, k);
      VisitedExactlyOnce(sizes, seen[k], k);
    }
    forall digits | Fit(sizes, digits) ensures Value(sizes, digits) < |seen| && seen[Value(sizes, digits)] == digits {
      ValueBound(sizes, digits);
      VisitedExactlyOnce(sizes, digits, Value(sizes, digits));
    }
  }

  lemma Joined(infos: seq<GeneratorInfo>, info: GeneratorInfo)
    requires info.currentIndex == 0
    ensures Value(Sizes(infos + [info]), Indices(infos + [info])) == Value(Sizes(infos), Indices(infos))
  {
    AppendKeepsValue(Sizes(infos), Indices(infos), Span(info.size));
    assert Sizes(infos + [info]) == Sizes(infos) + [Span(info.size)];
    assert Indices(infos + [info]) == Indices(infos) + [0];
  }

  /** If the first `i` digits wrap and the next one, if there is one, moves, that is one move. */
  lemma {:induction false} NextIs(sizes: seq<nat>, digits: seq<nat>, i: nat, after: seq<nat>)
    requires |digits| == |sizes| == |after| && i <= |sizes|
    requires forall j :: 0 <= j < i ==> digits[j] + 1 == sizes[j] && after[j] == 0
    requires i < |sizes| ==> digits[i] + 1 != sizes[i] && after[i] == digits[i] + 1
    requires forall j :: i < j < |sizes| ==> after[j] == digits[j]
    ensures (after, i < |sizes|) == Next(sizes, digits)
  {
    if i > 0 {
      NextIs(sizes[1..], digits[1..], i - 1, after[1..]);
      assert after == [0] + after[1..];
    } else if sizes != [] {
      assert after[1..] == digits[1..];
      assert after == [after[0]] + after[1..];
    }
  }
}
