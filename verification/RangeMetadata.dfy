/** The "intrange" metadata on a load or call: RangePass writes it, ValueGen turns it into an
    assertion on the value. */
module RangeMetadata {
  import opened BitVec
  import opened CRanges
  import opened Terms
  import opened Solver

  /** The condition assumed for one [lo, hi) pair of metadata, lo != hi. */
  function RangeTerm(t: Term, lo: nat, hi: nat): (r: Term)
    requires lo != hi
    ensures Width(r) == 1
  {
    var atLeast := Cmp(Uge, t, Const(Width(t), lo));
    var below := Cmp(Ult, t, Const(Width(t), hi));
    if lo == 0 then below
    else if hi == 0 then atLeast
    else if lo <= hi then Conj(atLeast, below)
    else Disj(atLeast, below)
  }

  /** The assumed condition says exactly that the value lies in the wrapped interval. */
  lemma RangeTermMeaning(t: Term, lo: nat, hi: nat, e: Env)
    requires lo != hi && Eval(t, e) < Pow2(Width(t))
    ensures Holds(RangeTerm(t, lo, hi), e) <==> CRange(Width(t), lo, hi).Contains(Eval(t, e))
  {
    hide BitAnd, BitOr, Pow2;
    var atLeast := Cmp(Uge, t, Const(Width(t), lo));
    var below := Cmp(Ult, t, Const(Width(t), hi));
    HoldsConnectives(atLeast, below, e);
  }

  /** RangePass::doFinalization: the metadata it writes for a global range, if any. */
  function WrittenMetadata(r: CRange): seq<(nat, nat)> {
    if r.IsEmpty() || r.IsFull() then [] else [(r.lo, r.hi)]
  }

  /** Round trip: whenever metadata is written, the constraints assumed from it are a single one,
      which holds of a value exactly when the value is in the range. */
  lemma MetadataRoundTrip(r: CRange, t: Term, e: Env)
    requires r.Valid() && Width(t) == r.width && Eval(t, e) < Pow2(r.width)
    ensures (forall c :: c in RangeTerms(t, WrittenMetadata(r)) ==> Holds(c, e))
            <==> r.Contains(Eval(t, e)) || r.IsEmpty()
  {
    var md := WrittenMetadata(r);
    if md != [] {
      RangeTermsOfOne(t, r.lo, r.hi);
      RangeTermMeaning(t, r.lo, r.hi, e);
    }
  }

  lemma RangeTermsOfOne(t: Term, lo: nat, hi: nat)
    requires lo != hi
    ensures RangeTerms(t, [(lo, hi)]) == {RangeTerm(t, lo, hi)}
  {
    assert RangeTerms(t, []) == {};
    assert [(lo, hi)][..0] == [];
  }

  /** All the conditions assumed for a list of pairs; a pair with equal ends is skipped. */
  function RangeTerms(t: Term, md: seq<(nat, nat)>): set<Term> {
    if md == [] then {} else
      var (lo, hi) := md[|md| - 1];
      RangeTerms(t, md[..|md| - 1]) + if lo == hi then {} else {RangeTerm(t, lo, hi)}
  }

  lemma {:induction false} RangeTermsAre(t: Term, md: seq<(nat, nat)>)
    ensures forall c :: c in RangeTerms(t, md) ==>
              exists i :: 0 <= i < |md| && md[i].0 != md[i].1 && c == RangeTerm(t, md[i].0, md[i].1)
    ensures forall i :: 0 <= i < |md| && md[i].0 != md[i].1 ==> RangeTerm(t, md[i].0, md[i].1) in RangeTerms(t, md)
  {
    if md != [] {
      var init := md[..|md| - 1];
      RangeTermsAre(t, init);
      forall i | 0 <= i < |md| && md[i].0 != md[i].1 ensures RangeTerm(t, md[i].0, md[i].1) in RangeTerms(t, md) {
        if i < |init| { assert init[i] == md[i]; }
      }
      forall c | c in RangeTerms(t, md)
        ensures exists i :: 0 <= i < |md| && md[i].0 != md[i].1 && c == RangeTerm(t, md[i].0, md[i].1)
      {
        if c in RangeTerms(t, init) {
          var i :| 0 <= i < |init| && init[i].0 != init[i].1 && c == RangeTerm(t, init[i].0, init[i].1);
          assert md[i] == init[i];
        } else {
          assert c == RangeTerm(t, md[|md| - 1].0, md[|md| - 1].1);
        }
      }
    }
  }

  /** addRangeConstraints: every reference taken on the way is released. */
  method AddRangeConstraints(smt: SMTSolver, t: Term, md: seq<(nat, nat)>)
    requires t in smt.refs && Width(t) >= 1
    requires forall i :: 0 <= i < |md| ==> md[i].0 < Pow2(Width(t)) && md[i].1 < Pow2(Width(t))
    modifies smt
    ensures smt.refs == old(smt.refs)
    ensures smt.asserted == old(smt.asserted) + RangeTerms(t, md)
  {
    var i := 0;
    assert md[..0] == [];
    while i < |md|
      invariant 0 <= i <= |md|
      invariant smt.refs == old(smt.refs)
      invariant smt.asserted == old(smt.asserted) + RangeTerms(t, md[..i])
    {
      var (lo, hi) := md[i];
      assert md[..i + 1][..i] == md[..i];
      i := i + 1;
      if lo == hi {
        continue;
      }
      var cond := BuildRangeTerm(smt, t, lo, hi);
      smt.Assume(cond);
      smt.Decref(cond);
    }
    assert md[..|md|] == md;
  }

  method BuildRangeTerm(smt: SMTSolver, t: Term, lo: nat, hi: nat) returns (cond: Term)
    requires t in smt.refs && Width(t) >= 1 && lo != hi && lo < Pow2(Width(t)) && hi < Pow2(Width(t))
    modifies smt`refs
    ensures cond == RangeTerm(t, lo, hi) && smt.refs == old(smt.refs) + multiset{cond}
  {
    if lo == 0 {
      cond := BuildBound(smt, Ult, t, hi);
    } else if hi == 0 {
      cond := BuildBound(smt, Uge, t, lo);
    } else {
      var cmp0 := BuildBound(smt, Uge, t, lo);
      var cmp1 := BuildBound(smt, Ult, t, hi);
      if lo <= hi {
        cond := smt.Combine(Conj(cmp0, cmp1), cmp0, cmp1, old(smt.refs));
      } else {
        cond := smt.Combine(Disj(cmp0, cmp1), cmp0, cmp1, old(smt.refs));
      }
    }
  }

  method BuildBound(smt: SMTSolver, op: CmpOp, t: Term, bound: nat) returns (cond: Term)
    requires t in smt.refs && Width(t) >= 1 && bound < Pow2(Width(t))
    modifies smt`refs
    ensures cond == Cmp(op, t, Const(Width(t), bound)) && smt.refs == old(smt.refs) + multiset{cond}
  {
    var tmp := smt.Build(Const(Width(t), bound));
    cond := smt.Build(Cmp(op, t, tmp));
    smt.Decref(tmp);
  }
}
