/** Wrapped half-open intervals of n-bit values (llvm::ConstantRange with the fixups of CRange). */
module CRanges {
  import opened BitVec

  /** [lo, hi), wrapping past the top; lo == hi is the full set at UMAX and the empty set at 0. */
  datatype CRange = CRange(width: nat, lo: nat, hi: nat) {

    predicate Valid() {
      && width >= 1 && lo < Pow2(width) && hi < Pow2(width)
      && (lo == hi ==> lo == 0 || lo == UMax(width))
    }

    predicate IsFull() {
      lo == hi == UMax(width)
    }

    predicate IsEmpty() {
      lo == hi == 0
    }

    predicate Contains(x: nat) {
      && x < Pow2(width)
      && if lo == hi then IsFull() else if lo < hi then lo <= x < hi else x >= lo || x < hi
    }
  }

  function FullSet(width: nat): (r: CRange)
    requires width >= 1
    ensures r.Valid() && forall x: nat :: r.Contains(x) <==> x < Pow2(width)
  {
    assert UMax(width) >= 1;
    CRange(width, UMax(width), UMax(width))
  }

  ghost predicate Subset(a: CRange, b: CRange) {
    forall x: nat :: a.Contains(x) ==> b.Contains(x)
  }

  /** Ranges are canonical: different bounds denote different sets. */
  lemma DifferentSets(a: CRange, b: CRange)
    requires a.Valid() && b.Valid() && a.width == b.width && a != b
    ensures exists x: nat :: a.Contains(x) != b.Contains(x)
  {
    var w := a.width;
    assert
      || a.Contains(0) != b.Contains(0) || a.Contains(UMax(w)) != b.Contains(UMax(w))
      || a.Contains(a.lo) != b.Contains(a.lo) || a.Contains(b.lo) != b.Contains(b.lo)
      || a.Contains(a.hi) != b.Contains(a.hi) || a.Contains(b.hi) != b.Contains(b.hi)
      || a.Contains(Before(w, a.lo)) != b.Contains(Before(w, a.lo))
      || a.Contains(Before(w, b.lo)) != b.Contains(Before(w, b.lo))
      || a.Contains(Before(w, a.hi)) != b.Contains(Before(w, a.hi))
      || a.Contains(Before(w, b.hi)) != b.Contains(Before(w, b.hi));
  }

  function Before(width: nat, x: nat): nat {
    if x == 0 then UMax(width) else x - 1
  }
}
