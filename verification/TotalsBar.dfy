/** The coloured bar under a test run: three widths in proportion to three counts. */
module TotalsBar {

  const CONSOLE_WIDTH := 80
  const SIZE_SPAN := 0x1_0000_0000_0000_0000

  type Size = n: nat | n < SIZE_SPAN

  datatype Counts = Counts(passed: Size, failed: Size, failedButOk: Size)

  /** `std::size_t` arithmetic on sums of three. */
  function Wrap(n: nat): Size
    requires n < 3 * SIZE_SPAN
  {
    if n < SIZE_SPAN then n else if n < 2 * SIZE_SPAN then n - SIZE_SPAN else n - 2 * SIZE_SPAN
  }

  lemma WrapIsModulo(n: nat)
    requires n < 3 * SIZE_SPAN
    ensures Wrap(n) == n % SIZE_SPAN
  {
  }

  function Total(c: Counts): Size {
    Wrap(c.passed + c.failed + c.failedButOk)
  }

  predicate AllPassed(c: Counts) {
    c.failed == 0 && c.failedButOk == 0
  }

  datatype Colour = Error | ResultExpectedFailure | ResultSuccess | Success | Warning

  datatype Segment = Segment(colour: Colour, width: Size)

  datatype Widths = Widths(failed: Size, failedButOk: Size, passed: Size)

  function Sum(w: Widths): nat {
    w.failed + w.failedButOk + w.passed
  }

  /** The sum as the loops compare it. */
  function Sum64(w: Widths): Size {
    Wrap(Sum(w))
  }

  /** A width is positive exactly when its count is. */
  ghost predicate InStep(w: Widths, c: Counts) {
    && (w.failed > 0 <==> c.failed > 0)
    && (w.failedButOk > 0 <==> c.failedButOk > 0)
    && (w.passed > 0 <==> c.passed > 0)
  }

  /** A width differs from the count's exact share of the console by at most `below` and `above`. */
  ghost predicate Near(width: nat, count: nat, total: nat, below: int, above: int) {
    CONSOLE_WIDTH * count - below * total <= width * total <= CONSOLE_WIDTH * count + above * total
  }

  ghost predicate AllNear(w: Widths, c: Counts, total: nat, below: int, above: int) {
    && Near(w.failed, c.failed, total, below, above)
    && Near(w.failedButOk, c.failedButOk, total, below, above)
    && Near(w.passed, c.passed, total, below, above)
  }

  /** What `MakeRatio` computes if the product does not wrap: the share rounded down, or one for a
      share that would vanish. */
  ghost predicate Share(ratio: nat, count: nat, total: nat) {
    && ratio * total > CONSOLE_WIDTH * count - total
    && (ratio * total <= CONSOLE_WIDTH * count || (ratio == 1 && CONSOLE_WIDTH * count < total))
  }

  ghost predicate AllShares(w: Widths, c: Counts, total: nat) {
    && total == c.failed + c.failedButOk + c.passed > 0
    && Share(w.failed, c.failed, total) && Share(w.failedButOk, c.failedButOk, total) &&
        Share(w.passed, c.passed, total)
  }

  /** Shares rounded down, but not to nothing, add up to the console width, give or take two. */
  lemma SumOfShares(w: Widths, c: Counts, total: nat)
    requires AllShares(w, c, total)
    ensures CONSOLE_WIDTH - 2 <= Sum(w) <= CONSOLE_WIDTH + 2
  {
    Distribute(w.failed, w.failedButOk, w.passed, total);
    Between(Sum(w), CONSOLE_WIDTH - 3, CONSOLE_WIDTH + 3, total);
  }

  lemma Distribute(a: nat, b: nat, d: nat, total: nat)
    ensures (a + b + d) * total == a * total + b * total + d * total
  {
  }

  lemma Between(n: nat, low: nat, high: nat, total: nat)
    requires low * total < n * total < high * total
    ensures low < n < high
  {
    Ordered(n, low, total);
    Ordered(high, n, total);
  }

  lemma Ordered(a: nat, b: nat, total: nat)
    ensures a <= b ==> a * total <= b * total
  {
  }

  /** No width moves further than its bounds. */
  predicate Within(w: Widths, v: Widths, less: int, more: int) {
    && v.failed - less <= w.failed <= v.failed + more
    && v.failedButOk - less <= w.failedButOk <= v.failedButOk + more
    && v.passed - less <= w.passed <= v.passed + more
  }

  lemma Drift(width: nat, share: nat, count: nat, total: nat)
    requires Share(share, count, total) && share - 3 <= width <= share + 1
    ensures Near(width, count, total, 4, 2)
  {
    Ordered(share, width + 3, total);
    Ordered(width, share + 1, total);
    assert (width + 3) * total == width * total + 3 * total && (share + 1) * total == share * total + total;
  }

  lemma Remainder(x: nat, m: nat)
    requires m > 0
    ensures x % m <= x
  {
    assert x == m * (x / m) + x % m;
    assert m * (x / m) >= 0;
  }

  lemma Quotient(x: nat, width: nat, total: nat)
    requires total > 0 && x <= width * total
    ensures x / total <= width
  {
    Exceeds(x, width, total);
  }

  lemma Exceeds(x: nat, width: nat, total: nat)
    requires total > 0
    ensures x / total > width ==> x > width * total
  {
    Divides(x, total);
    Ordered(width + 1, x / total, total);
    assert (width + 1) * total == width * total + total;
  }

  lemma Divides(x: nat, total: nat)
    requires total > 0
    ensures x / total * total <= x < x / total * total + total
  {
    assert x == total * (x / total) + x % total;
  }

  lemma Shrinks(x: nat, total: nat)
    requires total > 0
    ensures x / total <= x
  {
    Divides(x, total);
    Ordered(1, total, x / total);
  }

  /** The 64-bit product, which may wrap around. */
  method TimesWidth(number: Size) returns (product: Size)
    ensures product <= CONSOLE_WIDTH * number
    ensures CONSOLE_WIDTH * number < SIZE_SPAN ==> product == CONSOLE_WIDTH * number
  {
    Remainder(CONSOLE_WIDTH * number, SIZE_SPAN);
    product := CONSOLE_WIDTH * number % SIZE_SPAN;
  }

  method DivideBy(x: Size, total: Size) returns (quotient: Size)
    requires total > 0
    ensures quotient <= x && (x <= CONSOLE_WIDTH * total ==> quotient <= CONSOLE_WIDTH)
    ensures quotient * total <= x < quotient * total + total
  {
    Divides(x, total);
    Shrinks(x, total);
    if x <= CONSOLE_WIDTH * total { Quotient(x, CONSOLE_WIDTH, total); }
    quotient := x / total;
  }

  /** Even where the 64-bit product wraps around, a share of the total stays within the console. */
  method MakeRatio(number: Size, total: Size) returns (ratio: Size)
    ensures number <= total ==> ratio <= CONSOLE_WIDTH
    ensures ratio > 0 <==> number > 0
    ensures 0 < total && number <= total && CONSOLE_WIDTH * number < SIZE_SPAN ==> Share(ratio, number, total)
  {
    ratio := 0;
    if total > 0 {
      var product := TimesWidth(number);
      ratio := DivideBy(product, total);
    }
    if ratio == 0 && number > 0 { ratio := 1; }
  }

  datatype Which = I | J | K

  function Pick(which: Which, i: nat, j: nat, k: nat): nat {
    match which case I => i case J => j case K => k
  }

  function At(w: Widths, which: Which): Size {
    match which case I => w.failed case J => w.failedButOk case K => w.passed
  }

  /** Of several greatest widths the last one counts. */
  predicate LastGreatest(which: Which, i: nat, j: nat, k: nat) {
    match which case I => i > j && i > k case J => j >= i && j > k case K => k >= i && k >= j
  }

  predicate Greatest(which: Which, w: Widths) {
    LastGreatest(which, w.failed, w.failedButOk, w.passed)
  }

  /** Of the widths at most the last greatest has changed. */
  predicate OnlyGreatestMoves(before: Widths, after: Widths) {
    forall g, x :: Greatest(g, before) && x != g ==> At(after, x) == At(before, x)
  }

  /** What has been lowered is at most one below any other. */
  predicate Levelled(before: Widths, after: Widths) {
    forall x, y :: At(after, x) != At(before, x) ==> At(after, x) + 1 >= At(after, y)
  }

  method FindMax(i: nat, j: nat, k: nat) returns (which: Which)
    ensures Pick(which, i, j, k) >= i && Pick(which, i, j, k) >= j && Pick(which, i, j, k) >= k
    ensures LastGreatest(which, i, j, k)
  {
    if i > j && i > k { return I; }
    if j > k { return J; }
    return K;
  }

  /** One more for the greatest width, which may wrap around. */
  method Grow(w: Widths, c: Counts) returns (r: Widths)
    requires Sum64(w) < CONSOLE_WIDTH - 1
    ensures Sum64(r) == Sum64(w) + 1
    ensures 0 < Sum(w) < SIZE_SPAN ==> Sum(r) == Sum(w) + 1 && Within(r, w, 0, 1)
    ensures 0 < Sum(w) < SIZE_SPAN && InStep(w, c) ==> InStep(r, c)
    ensures OnlyGreatestMoves(w, r)
    ensures 0 < Sum(w) < SIZE_SPAN ==> forall g :: Greatest(g, w) ==> At(r, g) == At(w, g) + 1
  {
    var which := FindMax(w.failed, w.failedButOk, w.passed);
    match which {
      case I => r := w.(failed := Wrap(w.failed + 1));
      case J => r := w.(failedButOk := Wrap(w.failedButOk + 1));
      case K => r := w.(passed := Wrap(w.passed + 1));
    }
  }

  /** The greatest of three widths that are together more than three is at least two. */
  method Shrink(w: Widths, c: Counts) returns (r: Widths)
    requires Sum64(w) > CONSOLE_WIDTH - 1
    ensures Sum64(r) == Sum64(w) - 1 && Sum(r) == Sum(w) - 1 && Within(r, w, 1, 0)
    ensures InStep(w, c) ==> InStep(r, c)
    ensures OnlyGreatestMoves(w, r) && forall g :: Greatest(g, w) ==> At(r, g) == At(w, g) - 1
  {
    var which := FindMax(w.failed, w.failedButOk, w.passed);
    match which {
      case I => r := w.(failed := w.failed - 1);
      case J => r := w.(failedButOk := w.failedButOk - 1);
      case K => r := w.(passed := w.passed - 1);
    }
  }

  /** Whoever is the last greatest stays it by growing. */
  lemma StillGreatest(shares: Widths, w: Widths, r: Widths)
    requires OnlyGreatestMoves(shares, w) && OnlyGreatestMoves(w, r)
    requires forall g :: Greatest(g, shares) ==> Greatest(g, w)
    requires forall g :: Greatest(g, w) ==> At(r, g) == At(w, g) + 1
    ensures OnlyGreatestMoves(shares, r) && forall g :: Greatest(g, shares) ==> Greatest(g, r)
  {
    forall g | Greatest(g, shares)
      ensures Greatest(g, r) && forall x :: x != g ==> At(r, x) == At(shares, x)
    {
      assert Greatest(g, w);
      assert g != I ==> At(r, I) == At(w, I);
      assert g != J ==> At(r, J) == At(w, J);
      assert g != K ==> At(r, K) == At(w, K);
    }
  }

  lemma StillLevelled(grown: Widths, w: Widths, r: Widths)
    requires Levelled(grown, w) && OnlyGreatestMoves(w, r)
    requires forall g :: Greatest(g, w) ==> At(r, g) == At(w, g) - 1
    ensures Levelled(grown, r)
  {
    var g := if Greatest(I, w) then I else if Greatest(J, w) then J else K;
    assert Greatest(g, w) && forall y :: At(w, y) <= At(w, g);
    forall x, y | At(r, x) != At(grown, x) ensures At(r, x) + 1 >= At(r, y) {
      assert y != g ==> At(r, y) == At(w, y);
      if x != g { assert At(w, x) != At(grown, x); }
    }
  }

  /** What is missing all goes to the last greatest share; what is too much is taken from the peaks. */
  predicate Balanced(shares: Widths, w: Widths) {
    && (Sum(shares) < CONSOLE_WIDTH ==> OnlyGreatestMoves(shares, w))
    && (Sum(shares) >= CONSOLE_WIDTH ==> Levelled(shares, w))
  }

  /** Counted modulo 2^64, the widths always end up filling the line; truly so if the shares do not
      add up to 2^64. */
  method Balance(shares: Widths, c: Counts) returns (w: Widths)
    ensures Sum64(w) == CONSOLE_WIDTH - 1
    ensures 0 < Sum(shares) < SIZE_SPAN ==> Sum(w) == CONSOLE_WIDTH - 1 && (InStep(shares, c) ==> InStep(w, c))
    ensures 0 < Sum(shares) < CONSOLE_WIDTH ==> Within(w, shares, 0, CONSOLE_WIDTH - 1 - Sum(shares))
    ensures CONSOLE_WIDTH <= Sum(shares) < SIZE_SPAN ==> Within(w, shares, Sum(shares) - (CONSOLE_WIDTH - 1), 0)
    ensures 0 < Sum(shares) < SIZE_SPAN ==> Balanced(shares, w)
  {
    w := shares;
    ghost var plain := 0 < Sum(shares) < SIZE_SPAN;
    while Sum64(w) < CONSOLE_WIDTH - 1
      invariant Sum64(shares) >= CONSOLE_WIDTH - 1 ==> w == shares
      invariant Sum64(shares) < CONSOLE_WIDTH - 1 ==> Sum64(w) <= CONSOLE_WIDTH - 1
      invariant plain ==> Sum(shares) <= Sum(w) < SIZE_SPAN && Within(w, shares, 0, Sum(w) - Sum(shares))
      invariant plain && InStep(shares, c) ==> InStep(w, c)
      invariant plain ==> OnlyGreatestMoves(shares, w) && forall g :: Greatest(g, shares) ==> Greatest(g, w)
      decreases CONSOLE_WIDTH - Sum64(w)
    {
      ghost var before := w;
      w := Grow(w, c);
      if plain { StillGreatest(shares, before, w); }
    }
    ghost var grown := w;
    while Sum64(w) > CONSOLE_WIDTH - 1
      invariant Sum64(w) >= CONSOLE_WIDTH - 1
      invariant plain ==> Sum(w) <= Sum(grown) && Within(w, grown, Sum(grown) - Sum(w), 0)
      invariant plain && InStep(shares, c) ==> InStep(w, c)
      invariant Levelled(grown, w) && (Sum64(grown) <= CONSOLE_WIDTH - 1 ==> w == grown)
      decreases Sum64(w)
    {
      ghost var before := w;
      w := Shrink(w, c);
      StillLevelled(grown, before, w);
    }
  }

  lemma TotalIsSum(c: Counts)
    requires Countable(c)
    ensures Total(c) == c.failed + c.failedButOk + c.passed
  {
  }

  method Ratios(c: Counts, total: Size) returns (w: Widths)
    ensures InStep(w, c)
    ensures 0 < total == c.failed + c.failedButOk + c.passed ==>
              0 < Sum(w) <= 3 * CONSOLE_WIDTH && (CONSOLE_WIDTH * total < SIZE_SPAN ==> AllShares(w, c, total))
  {
    var failed := MakeRatio(c.failed, total);
    var failedButOk := MakeRatio(c.failedButOk, total);
    var passed := MakeRatio(c.passed, total);
    w := Widths(failed, failedButOk, passed);
  }

  /** The widths fill the line; none appears or vanishes against its count; and as long as the products
      fit 64 bits, each is close to the exact share. */
  method BarWidths(c: Counts) returns (w: Widths, ghost shares: Widths)
    requires Total(c) > 0
    ensures Sum64(w) == CONSOLE_WIDTH - 1
    ensures Countable(c) ==> Sum(w) == CONSOLE_WIDTH - 1 && InStep(w, c)
    ensures Countable(c) && CONSOLE_WIDTH * Total(c) < SIZE_SPAN ==> AllNear(w, c, Total(c), 4, 2)
    ensures Countable(c) ==> Balanced(shares, w)
    ensures Countable(c) && CONSOLE_WIDTH * Total(c) < SIZE_SPAN ==> AllShares(shares, c, Total(c))
  {
    if Countable(c) { TotalIsSum(c); }
    w := Ratios(c, Total(c));
    shares := w;
    w := Balance(w, c);
    if Countable(c) && CONSOLE_WIDTH * Total(c) < SIZE_SPAN {
      AllDrift(w, shares, c, Total(c));
    }
  }

  /** The total does not wrap around. */
  predicate Countable(c: Counts) {
    c.passed + c.failed + c.failedButOk < SIZE_SPAN
  }

  lemma AllDrift(w: Widths, shares: Widths, c: Counts, total: nat)
    requires AllShares(shares, c, total)
    requires Sum(shares) < CONSOLE_WIDTH ==> Within(w, shares, 0, CONSOLE_WIDTH - 1 - Sum(shares))
    requires Sum(shares) >= CONSOLE_WIDTH ==> Within(w, shares, Sum(shares) - (CONSOLE_WIDTH - 1), 0)
    ensures AllNear(w, c, total, 4, 2)
  {
    SumOfShares(shares, c, total);
    Drift(w.failed, shares.failed, c.failed, total);
    Drift(w.failedButOk, shares.failedButOk, c.failedButOk, total);
    Drift(w.passed, shares.passed, c.passed, total);
  }

  function Length(bar: seq<Segment>): nat {
    if bar == [] then 0 else bar[0].width + Length(bar[1..])
  }

  /** The bar fills the line, and shows a colour exactly for the counts that are not zero; if the total
      wraps around, the line may be filled modulo 2^64 only, and with a total of zero it has one colour. */
  method PrintTotalsDivider(c: Counts) returns (bar: seq<Segment>)
    ensures Length(bar) % SIZE_SPAN == CONSOLE_WIDTH - 1 && (Countable(c) ==> Length(bar) == CONSOLE_WIDTH - 1)
    ensures Total(c) == 0 ==> bar == [Segment(Warning, CONSOLE_WIDTH - 1)]
    ensures Total(c) > 0 ==>
              && |bar| == 3 && bar[0].colour == Error && bar[1].colour == ResultExpectedFailure
              && bar[2].colour == (if AllPassed(c) then ResultSuccess else Success)
    ensures Total(c) > 0 && Countable(c) ==>
              && InStep(Widths(bar[0].width, bar[1].width, bar[2].width), c)
              && (CONSOLE_WIDTH * Total(c) < SIZE_SPAN ==>
                   AllNear(Widths(bar[0].width, bar[1].width, bar[2].width), c, Total(c), 4, 2))
  {
    if Total(c) > 0 {
      ghost var shares;
      var w;
      w, shares := BarWidths(c);
      var last := if AllPassed(c) then ResultSuccess else Success;
      bar := [Segment(Error, w.failed), Segment(ResultExpectedFailure, w.failedButOk), Segment(last, w.passed)];
      LengthOfThree(bar);
      WrapIsModulo(Sum(w));
    } else {
      bar := [Segment(Warning, CONSOLE_WIDTH - 1)];
      assert bar[1..] == [];
    }
  }

  /** Counts whose total wraps around to zero: test cases ran, and the bar says that there were none. */
  method WrappedTotal() returns (bar: seq<Segment>)
    ensures bar == [Segment(Warning, CONSOLE_WIDTH - 1)]
  {
    bar := PrintTotalsDivider(Counts(SIZE_SPAN - 1, 1, 0));
  }

  lemma LengthOfThree(bar: seq<Segment>)
    requires |bar| == 3
    ensures Length(bar) == bar[0].width + bar[1].width + bar[2].width
  {
    assert bar[2..][1..] == [] && Length(bar[2..]) == bar[2].width;
    assert bar[1..][1..] == bar[2..];
  }
}
