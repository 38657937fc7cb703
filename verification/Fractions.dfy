/** The share one count has of another. */
module Fractions {

  lemma KeepsSign(x: real, t: real)
    requires t > 0.0
    ensures x * t >= 0.0 <==> x >= 0.0
  {
  }

  lemma ShareBounds(count: nat, total: nat)
    requires count <= total && total > 0
    ensures 0.0 <= count as real / total as real <= 1.0
    ensures count as real / total as real > 0.5 <==> 2 * count > total
  {
    var share, t := count as real / total as real, total as real;
    assert share * t == count as real;
    KeepsSign(share, t);
    KeepsSign(1.0 - share, t);
    KeepsSign(share - 0.5, t);
    KeepsSign(0.5 - share, t);
    assert (share - 0.5) * t == count as real - 0.5 * t;
  }
}
