/** The facts about products and quotients that proofs call by name. */
module Arithmetic {

  const TWO_TO_THE_32 := 0x1_0000_0000

  lemma HalfRatio(total: nat, length: nat)
    requires 2 * total <= length && length > 0
    ensures 0.0 <= 2.0 * (total as real) / (length as real) <= 1.0
  {
    var q := 2.0 * (total as real) / (length as real);
    assert q * (length as real) == 2.0 * (total as real);
  }

  lemma DivideCount(count: nat, size: nat)
    requires size > 0 && count < TWO_TO_THE_32
    ensures (count * size / size) % TWO_TO_THE_32 == count
  {
    var p := count * size;
    var q := p / size;
    assert p == q * size + p % size;
    if q < count {
      Monotonic(q + 1, count, size);
    } else if q > count {
      Monotonic(count + 1, q, size);
    }
  }

  lemma Monotonic(a: nat, b: nat, c: nat)
    requires a <= b
    ensures a * c <= b * c
  {
  }
}
