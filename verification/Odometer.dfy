/** Mixed-radix counting: least significant digit first. */
module Odometer {
  import opened Division

  ghost predicate Fit(sizes: seq<nat>, digits: seq<nat>) {
    |digits| == |sizes| && forall i :: 0 <= i < |sizes| ==> digits[i] < sizes[i]
  }

  function Product(sizes: seq<nat>): nat {
    if sizes == [] then 1 else sizes[0] * Product(sizes[1..])
  }

  function Value(sizes: seq<nat>, digits: seq<nat>): nat
    requires |digits| == |sizes|
  {
    if sizes == [] then 0 else digits[0] + sizes[0] * Value(sizes[1..], digits[1..])
  }

  function Zeros(n: nat): (z: seq<nat>)
    ensures |z| == n && forall i :: 0 <= i < n ==> z[i] == 0
  {
    if n == 0 then [] else [0] + Zeros(n - 1)
  }

  /** Advance the first digit that does not wrap, wrapping those in front of it; or wrap them all. */
  function Next(sizes: seq<nat>, digits: seq<nat>): (r: (seq<nat>, bool))
    requires |digits| == |sizes|
    ensures |r.0| == |sizes|
  {
    if sizes == [] then ([], false)
    else if digits[0] + 1 == sizes[0] then
      var rest := Next(sizes[1..], digits[1..]);
      ([0] + rest.0, rest.1)
    else ([digits[0] + 1] + digits[1..], true)
  }

  lemma FitTail(sizes: seq<nat>, digits: seq<nat>)
    requires sizes != [] && |digits| == |sizes|
    ensures Fit(sizes, digits) <==> digits[0] < sizes[0] && Fit(sizes[1..], digits[1..])
  {
    if digits[0] < sizes[0] && Fit(sizes[1..], digits[1..]) {
      forall i | 0 <= i < |sizes| ensures digits[i] < sizes[i] {
        if i > 0 { assert digits[1..][i - 1] < sizes[1..][i - 1]; }
      }
    }
  }

  lemma Carry(size: nat, value: nat, product: nat, digit: nat)
    requires value < product && digit < size
    ensures digit + size * value < size * product
  {
    assert size * (value + 1) <= size * product;
  }

  lemma {:induction false} ValueBound(sizes: seq<nat>, digits: seq<nat>)
    requires Fit(sizes, digits)
    ensures Value(sizes, digits) < Product(sizes)
  {
    if sizes != [] {
      FitTail(sizes, digits);
      ValueBound(sizes[1..], digits[1..]);
      Carry(sizes[0], Value(sizes[1..], digits[1..]), Product(sizes[1..]), digits[0]);
    }
  }

  lemma {:induction false} ZerosAreWorthNothing(sizes: seq<nat>)
    ensures Value(sizes, Zeros(|sizes|)) == 0
  {
    if sizes != [] {
      assert Zeros(|sizes|)[1..] == Zeros(|sizes| - 1);
      ZerosAreWorthNothing(sizes[1..]);
    }
  }

  /** One move adds one; it reports false exactly when it wraps around to zero. */
  lemma {:induction false} NextAddsOne(sizes: seq<nat>, digits: seq<nat>)
    requires Fit(sizes, digits)
    ensures Fit(sizes, Next(sizes, digits).0)
    ensures Next(sizes, digits).1 ==> Value(sizes, Next(sizes, digits).0) == Value(sizes, digits) + 1
    ensures !Next(sizes, digits).1 ==>
              Next(sizes, digits).0 == Zeros(|sizes|) && Value(sizes, digits) + 1 == Product(sizes)
  {
    if sizes != [] {
      var s, d, rest := sizes[1..], digits[1..], Next(sizes[1..], digits[1..]);
      FitTail(sizes, digits);
      FitTail(sizes, Next(sizes, digits).0);
      NextAddsOne(s, d);
      if digits[0] + 1 == sizes[0] {
        assert Next(sizes, digits).0[1..] == rest.0;
        assert sizes[0] * (Value(s, d) + 1) == sizes[0] + sizes[0] * Value(s, d);
      } else {
        assert Next(sizes, digits).0[1..] == d;
      }
    }
  }

  /** The tuple worth `value`. */
  function Tuple(sizes: seq<nat>, value: nat): (digits: seq<nat>)
    ensures |digits| == |sizes|
  {
    if sizes == [] then []
    else if sizes[0] == 0 then Zeros(|sizes|)
    else [value % sizes[0]] + Tuple(sizes[1..], value / sizes[0])
  }

  /** Tuples that fit and numbers below the product are the same thing. */
  lemma {:induction false} TupleOfValue(sizes: seq<nat>, digits: seq<nat>)
    requires Fit(sizes, digits)
    ensures Tuple(sizes, Value(sizes, digits)) == digits
  {
    if sizes != [] {
      FitTail(sizes, digits);
      DivideCarry(sizes[0], digits[0], Value(sizes[1..], digits[1..]));
      TupleOfValue(sizes[1..], digits[1..]);
      assert digits == [digits[0]] + digits[1..];
    }
  }

  lemma TupleStep(size: nat, s: seq<nat>, digit: nat, value: nat)
    requires digit < size
    ensures Tuple([size] + s, digit + size * value) == [digit] + Tuple(s, value)
  {
    DivideCarry(size, digit, value);
    assert ([size] + s)[1..] == s;
  }

  lemma {:induction false} ValueOfTuple(sizes: seq<nat>, value: nat)
    requires value < Product(sizes)
    ensures Fit(sizes, Tuple(sizes, value)) && Value(sizes, Tuple(sizes, value)) == value
  {
    if sizes != [] {
      var size, s := sizes[0], sizes[1..];
      Monotone(Product(s), size, 1);
      Divided(size, value, Product(s));
      var digit, high := value % size, value / size;
      ValueOfTuple(s, high);
      assert sizes == [size] + s;
      TupleStep(size, s, digit, high);
      assert ([digit] + Tuple(s, high))[1..] == Tuple(s, high);
      FitTail(sizes, [digit] + Tuple(s, high));
    }
  }

  /** A generator that joins late, with its index at zero, does not move the counter. */
  lemma {:induction false} AppendKeepsValue(sizes: seq<nat>, digits: seq<nat>, size: nat)
    requires |digits| == |sizes|
    ensures Value(sizes + [size], digits + [0]) == Value(sizes, digits)
  {
    if sizes == [] {
      assert ([size])[1..] == [] && ([0])[1..] == [];
      assert Value([size], [0]) == 0 + size * Value([], []);
    } else {
      AppendKeepsValue(sizes[1..], digits[1..], size);
      assert (sizes + [size])[1..] == sizes[1..] + [size] && (digits + [0])[1..] == digits[1..] + [0];
    }
  }

  /** The states of a counter that starts at zeros and is moved again and again. */
  function State(sizes: seq<nat>, k: nat): (digits: seq<nat>)
    ensures |digits| == |sizes|
  {
    if k == 0 then Zeros(|sizes|) else Next(sizes, State(sizes, k - 1)).0
  }

  ghost predicate AllPositive(sizes: seq<nat>) {
    forall i :: 0 <= i < |sizes| ==> sizes[i] > 0
  }

  lemma CountsOn(sizes: seq<nat>, k: nat)
    requires Product(sizes) > 0 && Fit(sizes, State(sizes, k)) && Value(sizes, State(sizes, k)) == k % Product(sizes)
    ensures Fit(sizes, State(sizes, k + 1)) && Value(sizes, State(sizes, k + 1)) == (k + 1) % Product(sizes)
    ensures Next(sizes, State(sizes, k)).1 <==> (k + 1) % Product(sizes) != 0
  {
    NextAddsOne(sizes, State(sizes, k));
    ValueBound(sizes, State(sizes, k));
    ValueBound(sizes, State(sizes, k + 1));
    ZerosAreWorthNothing(sizes);
    StepModulo(k, Product(sizes));
  }

  lemma {:induction false} Reached(sizes: seq<nat>, k: nat)
    requires AllPositive(sizes)
    ensures Product(sizes) > 0 && Fit(sizes, State(sizes, k)) && Value(sizes, State(sizes, k)) == k % Product(sizes)
  {
    ZerosAreWorthNothing(sizes);
    ValueBound(sizes, Zeros(|sizes|));
    if k > 0 {
      Reached(sizes, k - 1);
      CountsOn(sizes, k - 1);
    } else {
      DivideCarry(Product(sizes), 0, 0);
    }
  }

  /** For ever: after `k` moves the counter stands at `k` modulo the product, and a move reports false
      exactly when it completes a round. */
  lemma Counts(sizes: seq<nat>, k: nat)
    requires AllPositive(sizes)
    ensures Product(sizes) > 0
    ensures Fit(sizes, State(sizes, k)) && Value(sizes, State(sizes, k)) == k % Product(sizes)
    ensures Next(sizes, State(sizes, k)).1 <==> (k + 1) % Product(sizes) != 0
  {
    Reached(sizes, k);
    CountsOn(sizes, k);
  }

  /** Every tuple of indices is visited exactly once in every round. */
  lemma VisitedExactlyOnce(sizes: seq<nat>, digits: seq<nat>, k: nat)
    requires AllPositive(sizes) && Fit(sizes, digits) && k < Product(sizes)
    ensures State(sizes, k) == digits <==> k == Value(sizes, digits)
  {
    Counts(sizes, k);
    DivideCarry(Product(sizes), k, 0);
    TupleOfValue(sizes, digits);
    TupleOfValue(sizes, State(sizes, k));
  }
}
