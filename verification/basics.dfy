// What several parts share: the nil pointer of tables linked by indices, and two
// facts about products.

module Basics {
  const NIL: int := -1

  lemma MulLe(a: int, b: int, k: nat)
    ensures a <= b ==> a * k <= b * k
  {
    if a <= b {
      assert (b - a) * k >= 0;
    }
  }

  lemma MulGrows(a: int, b: int, k: nat)
    requires a < b
    ensures a * k + k <= b * k
  {
    var d := b - a - 1;
    assert d * k >= 0;
    assert (a + 1 + d) * k == a * k + k + d * k;
  }
}
