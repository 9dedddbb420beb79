/** A whole test case: the section loop inside the generator loop. */
module TestCaseRun {
  import opened Generators
  import opened Odometer
  import opened SectionTracker
  import opened SectionTree

  /** The generators a section uses when it is entered, by the path to it; sections and generators share
      no state, so that the uses of a cycle can be made in one go. */
  type UsesOf = seq<string> -> seq<Use>

  /** The uses on the way down a path. */
  function UsesAlong(path: seq<string>, usesOf: UsesOf): seq<Use> {
    if path == [] then [] else UsesAlong(path[..|path| - 1], usesOf) + usesOf(path)
  }

  ghost predicate AllRegistrable(usesOf: UsesOf) {
    forall path :: Registrable(usesOf(path))
  }

  lemma {:induction false} UsesAreRegistrable(path: seq<string>, usesOf: UsesOf)
    requires AllRegistrable(usesOf)
    ensures Registrable(UsesAlong(path, usesOf))
  {
    if path != [] {
      UsesAreRegistrable(path[..|path| - 1], usesOf);
      assert Registrable(usesOf(path));
    }
  }

  function UsesInCycle(s: Section, k: nat, usesOf: UsesOf): seq<Use>
    requires k < Leaves(s)
  {
    UsesAlong(PathTo(s, k), usesOf)
  }

  /** The generators known after the first `n` cycles. */
  function KnownUpTo(known: seq<Use>, s: Section, n: nat, usesOf: UsesOf): seq<Use>
    requires n <= Leaves(s)
  {
    if n == 0 then known
    else KnownAfter(KnownUpTo(known, s, n - 1, usesOf), UsesInCycle(s, n - 1, usesOf))
  }

  function KnownAfter(known: seq<Use>, uses: seq<Use>): seq<Use> {
    Registered(known, uses, |uses|)
  }

  /** The generators of the test, in the order in which its first round of cycles comes to them. */
  function GeneratorsOf(s: Section, usesOf: UsesOf): seq<Use> {
    KnownUpTo([], s, Leaves(s), usesOf)
  }

  lemma AfterExtends(known: seq<Use>, uses: seq<Use>)
    ensures known <= KnownAfter(known, uses)
  {
    KnownStays(known, uses, 0, |uses|);
  }

  lemma {:induction false} KnownGrows(known: seq<Use>, s: Section, j: nat, n: nat, usesOf: UsesOf)
    requires j <= n <= Leaves(s)
    ensures KnownUpTo(known, s, j, usesOf) <= KnownUpTo(known, s, n, usesOf)
  {
    if j < n {
      KnownGrows(known, s, j, n - 1, usesOf);
      AfterExtends(KnownUpTo(known, s, n - 1, usesOf), UsesInCycle(s, n - 1, usesOf));
    }
  }

  /** From the second round on nothing is registered. */
  lemma {:induction false} NothingNewInRound(s: Section, n: nat, usesOf: UsesOf)
    requires n <= Leaves(s)
    ensures KnownUpTo(GeneratorsOf(s, usesOf), s, n, usesOf) == GeneratorsOf(s, usesOf)
  {
    if n > 0 {
      var uses := UsesInCycle(s, n - 1, usesOf);
      NothingNewInRound(s, n - 1, usesOf);
      KnownGrows([], s, n, Leaves(s), usesOf);
      UsesAreKnown(KnownUpTo([], s, n - 1, usesOf), uses, GeneratorsOf(s, usesOf));
      AllKnown(GeneratorsOf(s, usesOf), uses, |uses|);
    }
  }

  lemma UsesAreKnown(known: seq<Use>, uses: seq<Use>, later: seq<Use>)
    requires KnownAfter(known, uses) <= later
    ensures forall j :: 0 <= j < |uses| ==> Knows(later, uses[j].fileInfo)
  {
    var after := KnownAfter(known, uses);
    forall j | 0 <= j < |uses| ensures Knows(later, uses[j].fileInfo) {
      KnownStays(known, uses, j, |uses|);
      var p :| 0 <= p < |after| && after[p].fileInfo == uses[j].fileInfo;
      assert later[p].fileInfo == uses[j].fileInfo;
    }
  }

  lemma {:induction false} AllKnown(known: seq<Use>, uses: seq<Use>, k: nat)
    requires k <= |uses| && forall j :: 0 <= j < |uses| ==> Knows(known, uses[j].fileInfo)
    ensures Registered(known, uses, k) == known
  {
    if k > 0 { AllKnown(known, uses, k - 1); }
  }

  /** What is shown of some generators is shown of more. */
  lemma ShownLater(known: seq<Use>, later: seq<Use>, uses: seq<Use>, digits: seq<nat>, after: seq<nat>,
                   values: seq<nat>)
    requires Shown(known, uses, digits, values) && known <= later && digits <= after && |after| == |later|
    ensures Shown(later, uses, after, values)
  {
    forall i | 0 <= i < |uses| ensures Shows(later, uses[i], after, values[i]) {
      assert Shows(known, uses[i], digits, values[i]);
      var p :| 0 <= p < |known| && known[p].fileInfo == uses[i].fileInfo && digits[p] == values[i];
      assert later[p].fileInfo == uses[i].fileInfo && after[p] == values[i];
    }
  }

  /** One round of cycles under one tuple of indices. */
  datatype Round = Round(cycles: seq<seq<Event>>, values: seq<seq<nat>>)

  ghost predicate CyclesShown(s: Section, usesOf: UsesOf, known: seq<Use>, digits: seq<nat>, round: Round, n: nat)
    requires n <= Leaves(s)
  {
    && |round.cycles| == |round.values| == n
    && (forall k :: 0 <= k < n ==> round.cycles[k] == Visit(PathTo(s, k)))
    && forall k :: 0 <= k < n ==> Shown(known, UsesInCycle(s, k, usesOf), digits, round.values[k])
  }

  lemma CyclesShownNext(s: Section, usesOf: UsesOf, known: seq<Use>, later: seq<Use>, digits: seq<nat>,
                        round: Round, n: nat, after: seq<nat>, events: seq<Event>, values: seq<nat>)
    requires n < Leaves(s) && CyclesShown(s, usesOf, known, digits, round, n) && |digits| == |known|
    requires known <= later && digits <= after && events == Visit(PathTo(s, n))
    requires Shown(later, UsesInCycle(s, n, usesOf), after, values)
    ensures CyclesShown(s, usesOf, later, after, Round(round.cycles + [events], round.values + [values]), n + 1)
  {
    forall k | 0 <= k < n ensures Shown(later, UsesInCycle(s, k, usesOf), after, round.values[k]) {
      ShownLater(known, later, UsesInCycle(s, k, usesOf), digits, after, round.values[k]);
    }
  }

  lemma StillZeros(digits: seq<nat>, here: seq<nat>, after: seq<nat>)
    requires WithZeros(digits, here) && WithZeros(here, after)
    ensures WithZeros(digits, after)
  {
  }

  lemma RoundNext(s: Section, usesOf: UsesOf, known: seq<Use>, n: nat, digits: seq<nat>, here: seq<nat>,
                  round: Round, after: seq<nat>, events: seq<Event>, values: seq<nat>)
    requires n < Leaves(s) && CyclesShown(s, usesOf, KnownUpTo(known, s, n, usesOf), here, round, n)
    requires |here| == |KnownUpTo(known, s, n, usesOf)| && WithZeros(digits, here) && WithZeros(here, after)
    requires events == Visit(PathTo(s, n))
    requires Shown(KnownUpTo(known, s, n + 1, usesOf), UsesInCycle(s, n, usesOf), after, values)
    ensures CyclesShown(s, usesOf, KnownUpTo(known, s, n + 1, usesOf), after,
                        Round(round.cycles + [events], round.values + [values]), n + 1)
    ensures WithZeros(digits, after)
  {
    StillZeros(digits, here, after);
    var first, next := KnownUpTo(known, s, n, usesOf), KnownUpTo(known, s, n + 1, usesOf);
    assert first <= next by { KnownGrows(known, s, n, n + 1, usesOf); }
    CyclesShownNext(s, usesOf, first, next, here, round, n, after, events, values);
  }

  class TestRunner {
    const run: RunContext
    const generators: GeneratorsForTest

    constructor ()
      ensures fresh(run) && fresh(run.ctx) && fresh(generators) && generators.At([], []) && generators.Repr == {}
      ensures run.ctx.Valid() && !run.ctx.illogical
    {
      run := new RunContext();
      generators := new GeneratorsForTest();
    }

    /** Where a round stands before cycle `k`: it began with generators `known` at `digits`, which are at
        `here` by now, and `round` is what it has shown. */
    ghost predicate Before(s: Section, usesOf: UsesOf, k: nat, known: seq<Use>, digits: seq<nat>, here: seq<nat>,
                           round: Round)
      requires k <= Leaves(s)
      reads run.ctx, generators, generators.generatorsInOrder
    {
      && DistinctNames(s) && AllRegistrable(usesOf)
      && run.ctx.Valid() && !run.ctx.illogical && run.ctx.rootTracker == 0 && BetweenCycles(run.ctx.trackers, s, k)
      && generators.At(KnownUpTo(known, s, k, usesOf), here) && WithZeros(digits, here)
      && CyclesShown(s, usesOf, KnownUpTo(known, s, k, usesOf), here, round, k)
    }

    /** `do ... while (!m_testCaseTracker->isSuccessfullyCompleted())`: every leaf once, under one tuple. */
    method RunRound(s: Section, usesOf: UsesOf, ghost known: seq<Use>, ghost digits: seq<nat>)
      returns (round: Round, ghost after: seq<nat>)
      requires DistinctNames(s) && run.ctx.Valid() && !run.ctx.illogical
      requires generators.At(known, digits) && AllRegistrable(usesOf)
      modifies run, run.ctx, generators
      ensures Before(s, usesOf, Leaves(s), known, digits, after, round)
      ensures fresh(generators.Repr - old(generators.Repr))
    {
      StartRound(s, usesOf, known, digits);
      round, after := Round([], []), digits;
      var k, completed := 0, false;
      while !completed
        invariant k <= Leaves(s) && (completed <==> k == Leaves(s))
        invariant Before(s, usesOf, k, known, digits, after, round)
        invariant fresh(generators.Repr - old(generators.Repr))
        decreases Leaves(s) - k
      {
        round, completed, after := RunNext(s, usesOf, k, known, digits, round, after);
        k := k + 1;
      }
    }

    method StartRound(s: Section, usesOf: UsesOf, ghost known: seq<Use>, ghost digits: seq<nat>)
      requires DistinctNames(s) && run.ctx.Valid() && !run.ctx.illogical
      requires generators.At(known, digits) && AllRegistrable(usesOf)
      modifies run.ctx
      ensures Before(s, usesOf, 0, known, digits, digits, Round([], []))
    {
      run.ctx.StartRun();
    }

    /** A cycle of the round. */
    method RunNext(s: Section, usesOf: UsesOf, k: nat, ghost known: seq<Use>, ghost digits: seq<nat>,
                   before: Round, ghost here: seq<nat>)
      returns (round: Round, completed: bool, ghost after: seq<nat>)
      requires k < Leaves(s) && Before(s, usesOf, k, known, digits, here, before)
      modifies run, run.ctx, generators
      ensures Before(s, usesOf, k + 1, known, digits, after, round) && (completed <==> k + 1 == Leaves(s))
      ensures fresh(generators.Repr - old(generators.Repr))
    {
      var events, values;
      events, values, completed, after := RunCycle(s, usesOf, k, known, here);
      RoundNext(s, usesOf, known, k, digits, here, before, after, events, values);
      round := Round(before.cycles + [events], before.values + [values]);
    }

    /** The cycle itself, with the generators that its sections use. */
    method RunCycle(s: Section, usesOf: UsesOf, k: nat, ghost known: seq<Use>, ghost digits: seq<nat>)
      returns (events: seq<Event>, values: seq<nat>, completed: bool, ghost after: seq<nat>)
      requires DistinctNames(s) && k < Leaves(s) && run.ctx.Valid() && !run.ctx.illogical && run.ctx.rootTracker == 0
      requires BetweenCycles(run.ctx.trackers, s, k)
      requires generators.At(KnownUpTo(known, s, k, usesOf), digits) && AllRegistrable(usesOf)
      modifies run, run.ctx, generators
      ensures run.ctx.Valid() && !run.ctx.illogical && run.ctx.rootTracker == 0
      ensures BetweenCycles(run.ctx.trackers, s, k + 1) && events == Visit(PathTo(s, k))
      ensures completed <==> k + 1 == Leaves(s)
      ensures generators.At(KnownUpTo(known, s, k + 1, usesOf), after) && WithZeros(digits, after)
      ensures Shown(KnownUpTo(known, s, k + 1, usesOf), UsesInCycle(s, k, usesOf), after, values)
      ensures fresh(generators.Repr - old(generators.Repr))
    {
      UsesAreRegistrable(PathTo(s, k), usesOf);
      events, completed := run.RunCycle(s, k);
      values, after := generators.RunBody(UsesAlong(PathTo(s, k), usesOf), KnownUpTo(known, s, k, usesOf), digits);
    }

    /** Before round `j` of the test. */
    ghost predicate Ready(s: Section, usesOf: UsesOf, j: nat)
      reads run.ctx, generators, generators.generatorsInOrder
    {
      && DistinctNames(s) && AllRegistrable(usesOf) && run.ctx.Valid() && !run.ctx.illogical
      && j < Product(Spans(GeneratorsOf(s, usesOf)))
      && if j == 0 then generators.At([], [])
         else generators.At(GeneratorsOf(s, usesOf), State(Spans(GeneratorsOf(s, usesOf)), j))
    }

    /** A round, after which all generators of the test are known. */
    method RunKnown(s: Section, usesOf: UsesOf, ghost j: nat) returns (round: Round, tuple: seq<nat>)
      requires Ready(s, usesOf, j)
      modifies run, run.ctx, generators
      ensures run.ctx.Valid() && !run.ctx.illogical && fresh(generators.Repr - old(generators.Repr))
      ensures tuple == State(Spans(GeneratorsOf(s, usesOf)), j) && generators.At(GeneratorsOf(s, usesOf), tuple)
      ensures CyclesShown(s, usesOf, GeneratorsOf(s, usesOf), tuple, round, Leaves(s))
    {
      ghost var all := GeneratorsOf(s, usesOf);
      ghost var known, digits, after := [], [], [];
      if j > 0 { known, digits := all, State(Spans(all), j); }
      NothingNewInRound(s, Leaves(s), usesOf);
      round, after := RunRound(s, usesOf, known, digits);
      tuple := generators.CurrentIndices();
      StartsAtZero(all, digits, after, j);
    }

    /** One turn of the outer loop: a round, and a move of the generators. */
    method RunTurn(s: Section, usesOf: UsesOf, ghost j: nat) returns (round: Round, tuple: seq<nat>, more: bool)
      requires Ready(s, usesOf, j)
      modifies run, run.ctx, generators, generators.Repr
      ensures fresh(generators.Repr - old(generators.Repr))
      ensures tuple == State(Spans(GeneratorsOf(s, usesOf)), j)
      ensures CyclesShown(s, usesOf, GeneratorsOf(s, usesOf), tuple, round, Leaves(s))
      ensures if more then Ready(s, usesOf, j + 1) else j + 1 == Product(Spans(GeneratorsOf(s, usesOf)))
    {
      round, tuple := RunKnown(s, usesOf, j);
      more := generators.Advance(GeneratorsOf(s, usesOf), j);
    }
  }

  /** What the rounds so far have shown. */
  ghost predicate RoundsShown(s: Section, usesOf: UsesOf, rounds: seq<Round>, tuples: seq<seq<nat>>) {
    && |tuples| == |rounds| && tuples == States(Spans(GeneratorsOf(s, usesOf)), |rounds|)
    && forall j :: 0 <= j < |rounds| ==>
         CyclesShown(s, usesOf, GeneratorsOf(s, usesOf), tuples[j], rounds[j], Leaves(s))
  }

  lemma RoundsShownNext(s: Section, usesOf: UsesOf, rounds: seq<Round>, tuples: seq<seq<nat>>, round: Round,
                        tuple: seq<nat>)
    requires RoundsShown(s, usesOf, rounds, tuples)
    requires tuple == State(Spans(GeneratorsOf(s, usesOf)), |rounds|)
    requires CyclesShown(s, usesOf, GeneratorsOf(s, usesOf), tuple, round, Leaves(s))
    ensures RoundsShown(s, usesOf, rounds + [round], tuples + [tuple])
  {
  }

  /** Where a test case stands: before its next round, or behind its last. */
  ghost predicate Progress(runner: TestRunner, s: Section, usesOf: UsesOf, rounds: seq<Round>, tuples: seq<seq<nat>>,
                           more: bool)
    reads runner.run.ctx, runner.generators, runner.generators.generatorsInOrder
  {
    && RoundsShown(s, usesOf, rounds, tuples) && |rounds| <= Product(Spans(GeneratorsOf(s, usesOf)))
    && if more then runner.Ready(s, usesOf, |rounds|) else |rounds| == Product(Spans(GeneratorsOf(s, usesOf)))
  }

  method NewTest(s: Section, usesOf: UsesOf) returns (runner: TestRunner)
    requires DistinctNames(s) && AllRegistrable(usesOf)
    ensures fresh(runner.run) && fresh(runner.run.ctx) && fresh(runner.generators) && fresh(runner.generators.Repr)
    ensures Progress(runner, s, usesOf, [], [], true)
  {
    runner := new TestRunner();
    SomeRun(GeneratorsOf(s, usesOf));
  }

  method NextRound(runner: TestRunner, s: Section, usesOf: UsesOf, before: seq<Round>, seen: seq<seq<nat>>)
    returns (rounds: seq<Round>, tuples: seq<seq<nat>>, more: bool)
    requires Progress(runner, s, usesOf, before, seen, true)
    modifies runner.run, runner.run.ctx, runner.generators, runner.generators.Repr
    ensures Progress(runner, s, usesOf, rounds, tuples, more) && |rounds| == |before| + 1
    ensures fresh(runner.generators.Repr - old(runner.generators.Repr))
  {
    var round, tuple;
    round, tuple, more := runner.RunTurn(s, usesOf, |before|);
    RoundsShownNext(s, usesOf, before, seen, round, tuple);
    rounds, tuples := before + [round], seen + [tuple];
  }

  /** A test case with sections and generators: there is one round for each tuple of generator indices, in
      which every leaf path is run once, in program order, and every generator used on the way shows its
      place in the tuple; generators register where the first round comes to them.  So each pair of a leaf
      and a tuple is run exactly once. */
  method RunTestCase(s: Section, usesOf: UsesOf) returns (rounds: seq<Round>, tuples: seq<seq<nat>>)
    requires DistinctNames(s) && AllRegistrable(usesOf)
    ensures |rounds| == |tuples| == Product(Spans(GeneratorsOf(s, usesOf)))
    ensures EachOnce(Spans(GeneratorsOf(s, usesOf)), tuples)
    ensures forall j :: 0 <= j < |rounds| ==>
              CyclesShown(s, usesOf, GeneratorsOf(s, usesOf), tuples[j], rounds[j], Leaves(s))
  {
    var runner := NewTest(s, usesOf);
    rounds, tuples := [], [];
    var more := true;
    while more
      invariant fresh(runner.run) && fresh(runner.run.ctx) && fresh(runner.generators) && fresh(runner.generators.Repr)
      invariant Progress(runner, s, usesOf, rounds, tuples, more)
      decreases Product(Spans(GeneratorsOf(s, usesOf))) - |rounds|, more
    {
      rounds, tuples, more := NextRound(runner, s, usesOf, rounds, tuples);
    }
    SeenOnce(Spans(GeneratorsOf(s, usesOf)), tuples);
  }
}
