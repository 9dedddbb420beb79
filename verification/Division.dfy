/** Quotients and remainders of natural numbers. */
module Division {

  lemma Multiples(size: nat, gap: int)
    ensures gap > 0 ==> size * gap >= size
    ensures gap < 0 ==> size * gap <= 0 - size
  {
  }

  lemma DivideCarry(size: nat, digit: nat, value: nat)
    requires digit < size
    ensures (digit + size * value) % size == digit && (digit + size * value) / size == value
  {
    var n := digit + size * value;
    assert n == size * (n / size) + n % size;
    var gap := n / size - value;
    assert size * gap == digit - n % size by {
      assert size * (n / size) - size * value == size * gap;
    }
    Multiples(size, gap);
  }

  lemma Monotone(size: nat, a: nat, b: nat)
    ensures a >= b ==> size * a >= size * b
  {
  }

  lemma Divided(size: nat, value: nat, product: nat)
    requires size > 0 && value < size * product
    ensures value == value % size + size * (value / size) && value / size < product
  {
    Monotone(size, value / size, product);
  }

  lemma StepModulo(k: nat, p: nat)
    requires p > 0
    ensures (k + 1) % p == if k % p + 1 == p then 0 else k % p + 1
  {
    var q := k / p;
    assert k == p * q + k % p;
    if k % p + 1 == p {
      assert k + 1 == p * (q + 1);
      DivideCarry(p, 0, q + 1);
    } else {
      DivideCarry(p, k % p + 1, q);
    }
  }

  lemma Below(k: nat, p: nat)
    requires k < p
    ensures k % p == k
  {
  }
}
