/** Facts about finite sets that the termination arguments of the passes share. */
module FiniteSets {

  function Numbers(n: nat): (s: set<nat>)
    ensures forall u: nat :: u in s <==> u < n
  {
    if n == 0 then {} else Numbers(n - 1) + {n - 1}
  }

  lemma CardinalityBelow<T>(a: set<T>, b: set<T>)
    requires a <= b
    ensures |a| <= |b| && (a != b ==> |a| < |b|)
  {
    assert b == a + (b - a);
    assert a != b ==> b - a != {};
  }
}
