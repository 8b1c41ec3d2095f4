/** The path predicate PathGen builds for a block, and what it says in each of its two modes. */
module PathEncoding {
  import opened BitVec
  import opened Terms
  import opened SSA
  import opened ValueEncoding

  /** PathGen is created with or without a dominator tree; of the tree it only uses
      findNearestCommonDominator. */
  datatype DomTree = NoTree | Tree(nearest: (nat, nat) -> nat)

  ghost predicate ValidTree(f: Func, dt: DomTree) {
    dt.Tree? ==> forall a: nat, b: nat :: a < |f.terms| && b < |f.terms| ==> IsNearest(f, dt.nearest(a, b), a, b)
  }

  ghost predicate IsNearest(f: Func, d: nat, a: nat, b: nat) {
    && d < |f.terms| && f.Dominates(d, a) && f.Dominates(d, b)
    && forall c: nat :: f.Dominates(c, a) && f.Dominates(c, b) ==> f.Dominates(c, d)
  }

  /** findCommonDominator over the first k predecessors. */
  function CommonDominator(f: Func, dt: DomTree, b: nat, k: nat): nat
    requires dt.Tree? && b < |f.preds| && 1 <= k <= |f.preds[b]|
  {
    if k == 1 then f.preds[b][0] else dt.nearest(CommonDominator(f, dt, b, k - 1), f.preds[b][k - 1])
  }

  lemma SelfDominates(f: Func, b: nat)
    ensures f.Dominates(b, b)
  {
  }

  lemma {:induction false} CommonDominatorDominates(f: Func, dt: DomTree, b: nat, k: nat)
    requires ValidTree(f, dt) && dt.Tree? && b < |f.terms| && 1 <= k <= |f.preds[b]|
    ensures var d := CommonDominator(f, dt, b, k);
            d < |f.terms| && forall j :: 0 <= j < k ==> f.Dominates(d, f.preds[b][j])
  {
    var p := f.preds[b][k - 1];
    assert p in f.preds[b] && f.Edge(p, b);
    if k == 1 {
      SelfDominates(f, p);
    } else {
      CommonDominatorDominates(f, dt, b, k - 1);
      var c := CommonDominator(f, dt, b, k - 1);
      assert IsNearest(f, dt.nearest(c, p), c, p);
      forall j | 0 <= j < k - 1
        ensures f.Dominates(dt.nearest(c, p), f.preds[b][j])
      {
        DominatesTransitive(f, dt.nearest(c, p), c, f.preds[b][j]);
      }
    }
  }

  /** And it is the nearest: whatever dominates all of them dominates it. */
  lemma {:induction false} CommonDominatorNearest(f: Func, dt: DomTree, b: nat, k: nat, c: nat)
    requires ValidTree(f, dt) && dt.Tree? && b < |f.terms| && 1 <= k <= |f.preds[b]|
    requires forall j :: 0 <= j < k ==> f.Dominates(c, f.preds[b][j])
    ensures f.Dominates(c, CommonDominator(f, dt, b, k))
  {
    if k > 1 {
      var d, p := CommonDominator(f, dt, b, k - 1), f.preds[b][k - 1];
      assert p in f.preds[b] && f.Edge(p, b);
      CommonDominatorDominates(f, dt, b, k - 1);
      CommonDominatorNearest(f, dt, b, k - 1, c);
      assert IsNearest(f, dt.nearest(d, p), d, p);
    }
  }

  /** d dominates all predecessors of b, and everything that does dominates d. */
  ghost predicate NearestOfPreds(f: Func, d: nat, b: nat) {
    && d < |f.terms| && (forall p: nat :: f.Edge(p, b) ==> f.Dominates(d, p))
    && forall c: nat :: (forall p: nat :: f.Edge(p, b) ==> f.Dominates(c, p)) ==> f.Dominates(c, d)
  }

  /** The fold over the predecessors finds that block, and there is only one. */
  lemma CommonDominatorUnique(f: Func, dt: DomTree, b: nat, d: nat)
    requires ValidTree(f, dt) && dt.Tree? && 0 < b < |f.terms|
    ensures |f.preds[b]| >= 1
    ensures NearestOfPreds(f, d, b) <==> d == CommonDominator(f, dt, b, |f.preds[b]|)
  {
    CommonDominatorBelow(f, dt, b);
    var n := |f.preds[b]|;
    var m := CommonDominator(f, dt, b, n);
    CommonDominatorDominates(f, dt, b, n);
    forall p: nat | f.Edge(p, b) ensures f.Dominates(m, p) {
      assert p in f.preds[b];
    }
    forall c: nat | forall p: nat :: f.Edge(p, b) ==> f.Dominates(c, p) ensures f.Dominates(c, m) {
      forall j | 0 <= j < n ensures f.Dominates(c, f.preds[b][j]) { assert f.preds[b][j] in f.preds[b]; }
      CommonDominatorNearest(f, dt, b, n, c);
    }
    if NearestOfPreds(f, d, b) {
      assert f.Dominates(m, d) && f.Dominates(d, m);
      DominatorBelow(f, m, d);
      DominatorBelow(f, d, m);
    }
  }

  /** The common dominator of the predecessors of a block is numbered below the block. */
  lemma CommonDominatorBelow(f: Func, dt: DomTree, b: nat)
    requires ValidTree(f, dt) && dt.Tree? && 0 < b < |f.terms|
    ensures |f.preds[b]| >= 1 && CommonDominator(f, dt, b, |f.preds[b]|) < b
  {
    assert f.HasForwardPred(b);
    var p: nat :| f.Edge(p, b) && (p, b) !in f.back;
    assert p in f.preds[b];
    CommonDominatorDominates(f, dt, b, |f.preds[b]|);
    DominatorBelow(f, CommonDominator(f, dt, b, |f.preds[b]|), p);
  }

  // ----- The formulas

  predicate HasBackPred(f: Func, b: nat)
    requires b < |f.preds|
  {
    exists p :: p in f.preds[b] && (p, b) in f.back
  }

  lemma PredIsEdge(f: Func, b: nat, i: nat)
    requires b < |f.terms| && i < |f.preds[b]|
    ensures f.Edge(f.preds[b][i], b) && ((f.preds[b][i], b) in f.back || f.preds[b][i] < b)
  {
    assert f.preds[b][i] in f.preds[b];
  }

  ghost function Guard(f: Func, dt: DomTree, b: nat): (g: Term)
    requires ValidTree(f, dt) && b < |f.terms|
    ensures Width(g) == 1
    decreases b, 1, 0
  {
    if b == 0 then True
    else if dt.Tree? && HasBackPred(f, b) then
      CommonDominatorBelow(f, dt, b);
      Guard(f, dt, CommonDominator(f, dt, b, |f.preds[b]|))
    else GuardUpTo(f, dt, b, |f.preds[b]|)
  }

  /** The disjunction over the first k predecessors; without a tree, back edges are skipped. */
  ghost function GuardUpTo(f: Func, dt: DomTree, b: nat, k: nat): (g: Term)
    requires ValidTree(f, dt) && b < |f.terms| && k <= |f.preds[b]|
    requires dt.Tree? ==> !HasBackPred(f, b)
    ensures Width(g) == 1
    decreases b, 0, k
  {
    if k == 0 then False else
      var p := f.preds[b][k - 1];
      var prev := GuardUpTo(f, dt, b, k - 1);
      if (p, b) in f.back then prev
      else
        assert f.Edge(p, b);
        Disj(prev, Conj(EdgeGuard(f, p, b), Guard(f, dt, p)))
  }

  ghost function EdgeGuard(f: Func, p: nat, b: nat): (g: Term)
    requires f.Edge(p, b)
    ensures Width(g) == 1
  {
    Conj(TermGuard(f, p, b), PhiGuard(f, p, b, |f.values|))
  }

  ghost function TermGuard(f: Func, p: nat, b: nat): (g: Term)
    requires f.Edge(p, b)
    ensures Width(g) == 1
  {
    assert f.ValidTerm(p);
    match f.terms[p]
    case CondBr(c, ifTrue, _) => if ifTrue == b then Enc(f, c) else Not(Enc(f, c))
    case Switch(c, default, cases) =>
      if default != b then CasesTerm(f, p, b, false, |cases|)
      else Not(CasesTerm(f, p, b, true, |cases|))
    case _ => True
  }

  /** Some of the first k cases -- all of them, or those that lead to b -- has the condition's value. */
  ghost function CasesTerm(f: Func, p: nat, b: nat, all: bool, k: nat): (g: Term)
    requires p < |f.terms| && f.terms[p].Switch? && k <= |f.terms[p].cases|
    ensures Width(g) == 1
    decreases k
  {
    if k == 0 then False else
      assert f.ValidTerm(p);
      var (u, succ) := f.terms[p].cases[k - 1];
      var prev := CasesTerm(f, p, b, all, k - 1);
      assert f.IsCase(u, f.values[f.terms[p].cond].width);
      if all || succ == b then Disj(prev, Cmp(Eq, Enc(f, f.terms[p].cond), Enc(f, u))) else prev
  }

  /** The PHIs of b among the first n values that constrain the edge from p. */
  predicate ConstrainedPhi(f: Func, p: nat, b: nat, v: nat) {
    && v < |f.values| && f.values[v].home == b && f.values[v].def.Phi?
    && p in f.values[v].def.incoming
    && var u := f.values[v].def.incoming[p];
       u < |f.values| && !f.values[u].def.Undef? && f.values[u].analyzable
  }

  ghost function PhiGuard(f: Func, p: nat, b: nat, n: nat): (g: Term)
    requires f.Edge(p, b) && n <= |f.values|
    ensures Width(g) == 1
    decreases n
  {
    if n == 0 then True else
      var prev := PhiGuard(f, p, b, n - 1);
      if ConstrainedPhi(f, p, b, n - 1) then
        PhiTyped(f, p, b, n - 1);
        Conj(prev, Cmp(Eq, Enc(f, n - 1), Enc(f, f.values[n - 1].def.incoming[p])))
      else prev
  }

  lemma PhiTyped(f: Func, p: nat, b: nat, v: nat)
    requires f.Edge(p, b) && ConstrainedPhi(f, p, b, v)
    ensures var u := f.values[v].def.incoming[p];
            Encodable(f, v) && f.values[u].width == f.values[v].width && f.Available(u, p)
  {
    assert f.ValidValue(v);
    assert f.ValidIncoming(v, b);
  }

  // ----- Shape: a guard is about values of blocks numbered no higher than its own

  lemma ShapedPair(f: Func, t: Term, x: Term, y: Term, h: int)
    requires !Aborts(t) && Operands(t) == {x, y} && Shaped(f, x, h) && Shaped(f, y, h)
    ensures Shaped(f, t, h)
  {
    ShapedNode(f, t, h);
  }

  lemma AvailableShaped(f: Func, u: nat, b: nat)
    requires b < |f.terms| && Encodable(f, u) && f.Available(u, b)
    ensures Shaped(f, Enc(f, u), b)
  {
    EncShaped(f, u);
    AvailableBelow(f, u, b);
    ShapedWider(f, Enc(f, u), f.values[u].home, b);
  }

  lemma TermGuardShaped(f: Func, p: nat, b: nat)
    requires f.Edge(p, b)
    ensures Shaped(f, TermGuard(f, p, b), p)
  {
    assert f.ValidTerm(p);
    match f.terms[p] {
      case CondBr(c, ifTrue, _) =>
        AvailableShaped(f, c, p);
        if ifTrue != b {
          ShapedNode(f, TermGuard(f, p, b), p);
        }
      case Switch(c, default, cases) =>
        CasesShaped(f, p, b, default == b, |cases|);
        if default == b {
          ShapedNode(f, TermGuard(f, p, b), p);
        }
      case _ => ShapedNode(f, True, p);
    }
  }

  lemma {:induction false} CasesShaped(f: Func, p: nat, b: nat, all: bool, k: nat)
    requires p < |f.terms| && f.terms[p].Switch? && k <= |f.terms[p].cases|
    ensures Shaped(f, CasesTerm(f, p, b, all, k), p)
    decreases k
  {
    if k == 0 {
      ShapedNode(f, False, p);
    } else {
      CasesShaped(f, p, b, all, k - 1);
      assert f.ValidTerm(p);
      var (u, succ) := f.terms[p].cases[k - 1];
      var c := f.terms[p].cond;
      assert f.IsCase(u, f.values[c].width);
      if all || succ == b {
        AvailableShaped(f, c, p);
        AvailableShaped(f, u, p);
        var test := Cmp(Eq, Enc(f, c), Enc(f, u));
        ShapedPair(f, test, Enc(f, c), Enc(f, u), p);
        ShapedPair(f, CasesTerm(f, p, b, all, k), CasesTerm(f, p, b, all, k - 1), test, p);
      }
    }
  }

  lemma {:induction false} PhiGuardShaped(f: Func, p: nat, b: nat, n: nat, h: int)
    requires f.Edge(p, b) && n <= |f.values| && p <= h && b <= h
    ensures Shaped(f, PhiGuard(f, p, b, n), h)
    decreases n
  {
    if n == 0 {
      ShapedNode(f, True, h);
    } else {
      PhiGuardShaped(f, p, b, n - 1, h);
      if ConstrainedPhi(f, p, b, n - 1) {
        PhiTyped(f, p, b, n - 1);
        var u := f.values[n - 1].def.incoming[p];
        EncShaped(f, n - 1);
        AvailableShaped(f, u, p);
        ShapedWider(f, Enc(f, n - 1), b, h);
        ShapedWider(f, Enc(f, u), p, h);
        var same := Cmp(Eq, Enc(f, n - 1), Enc(f, u));
        ShapedPair(f, same, Enc(f, n - 1), Enc(f, u), h);
        ShapedPair(f, PhiGuard(f, p, b, n), PhiGuard(f, p, b, n - 1), same, h);
      }
    }
  }

  lemma EdgeGuardShaped(f: Func, p: nat, b: nat, h: int)
    requires f.Edge(p, b) && p <= h && b <= h
    ensures Shaped(f, EdgeGuard(f, p, b), h)
  {
    TermGuardShaped(f, p, b);
    ShapedWider(f, TermGuard(f, p, b), p, h);
    PhiGuardShaped(f, p, b, |f.values|, h);
    ShapedPair(f, EdgeGuard(f, p, b), TermGuard(f, p, b), PhiGuard(f, p, b, |f.values|), h);
  }

  lemma {:induction false} GuardShaped(f: Func, dt: DomTree, b: nat)
    requires ValidTree(f, dt) && b < |f.terms|
    ensures Shaped(f, Guard(f, dt, b), b)
    decreases b, 1, 0
  {
    if b == 0 {
      ShapedNode(f, True, b);
    } else if dt.Tree? && HasBackPred(f, b) {
      CommonDominatorBelow(f, dt, b);
      var d := CommonDominator(f, dt, b, |f.preds[b]|);
      GuardShaped(f, dt, d);
      ShapedWider(f, Guard(f, dt, d), d, b);
    } else {
      GuardUpToShaped(f, dt, b, |f.preds[b]|);
    }
  }

  lemma {:induction false} GuardUpToShaped(f: Func, dt: DomTree, b: nat, k: nat)
    requires ValidTree(f, dt) && b < |f.terms| && k <= |f.preds[b]|
    requires dt.Tree? ==> !HasBackPred(f, b)
    ensures Shaped(f, GuardUpTo(f, dt, b, k), b)
    decreases b, 0, k
  {
    if k == 0 {
      ShapedNode(f, False, b);
    } else {
      var p := f.preds[b][k - 1];
      GuardUpToShaped(f, dt, b, k - 1);
      if (p, b) !in f.back {
        assert f.Edge(p, b);
        GuardShaped(f, dt, p);
        ShapedWider(f, Guard(f, dt, p), p, b);
        EdgeGuardShaped(f, p, b, b);
        var open := Conj(EdgeGuard(f, p, b), Guard(f, dt, p));
        ShapedPair(f, open, EdgeGuard(f, p, b), Guard(f, dt, p), b);
        ShapedPair(f, GuardUpTo(f, dt, b, k), GuardUpTo(f, dt, b, k - 1), open, b);
      }
    }
  }

  lemma OneBit(f: Func, t: Term, h: int, e: Env)
    requires Shaped(f, t, h) && Width(t) == 1 && Sized(f, e)
    ensures Eval(t, e) < 2
  {
    EvalBounded(t, e);
    assert Pow2(1) == 2;
  }

  // ----- Meaning of the parts

  /** The value of an encodable value under an assignment of the leaves. */
  ghost function ValueUnder(f: Func, v: nat, e: Env): nat
  {
    if Encodable(f, v) then Eval(Enc(f, v), e) else 0
  }

  /** Two shapes that getTermGuard does not distinguish: a conditional branch with equal
      successors, and a switch whose default is also the target of a case. */
  predicate Degenerate(f: Func, p: nat, b: nat, x: nat)
    requires p < |f.terms|
  {
    match f.terms[p]
    case CondBr(_, ifTrue, ifFalse) => ifTrue == ifFalse && x != 1
    case Switch(_, default, cases) => default == b && HasCase(f, cases, x)
    case _ => false
  }

  /** The terminator guard holds exactly when the branch is taken, except on the degenerate shapes. */
  lemma TermGuardMeaning(f: Func, p: nat, b: nat, e: Env)
    requires f.Edge(p, b) && Sized(f, e)
    ensures var x := ValueUnder(f, Condition(f, p), e);
            Holds(TermGuard(f, p, b), e) <==> Chooses(f, p, b, x) && !Degenerate(f, p, b, x)
  {
    assert f.ValidTerm(p);
    match f.terms[p] {
      case CondBr(c, _, _) =>
        AvailableShaped(f, c, p);
        OneBit(f, Enc(f, c), p, e);
        HoldsConnectives(Enc(f, c), Enc(f, c), e);
      case Switch(_, _, _) => SwitchGuardMeaning(f, p, b, e);
      case _ =>
    }
  }

  lemma SwitchGuardMeaning(f: Func, p: nat, b: nat, e: Env)
    requires f.Edge(p, b) && f.terms[p].Switch? && Sized(f, e)
    ensures var x := ValueUnder(f, f.terms[p].cond, e);
            Holds(TermGuard(f, p, b), e) <==> Chooses(f, p, b, x) && !Degenerate(f, p, b, x)
  {
    var Switch(c, default, cases) := f.terms[p];
    assert cases[..|cases|] == cases;
    var t := CasesTerm(f, p, b, default == b, |cases|);
    CasesMeaning(f, p, b, default == b, |cases|, e);
    CasesShaped(f, p, b, default == b, |cases|);
    OneBit(f, t, p, e);
    HoldsConnectives(t, t, e);
  }

  lemma {:induction false} CasesMeaning(f: Func, p: nat, b: nat, all: bool, k: nat, e: Env)
    requires p < |f.terms| && f.terms[p].Switch? && k <= |f.terms[p].cases| && Sized(f, e)
    ensures var cases := f.terms[p].cases[..k]; var x := ValueUnder(f, f.terms[p].cond, e);
            Holds(CasesTerm(f, p, b, all, k), e) <==>
            if all then HasCase(f, cases, x) else HasCaseTo(f, cases, x, b)
    decreases k
  {
    if k > 0 {
      CasesMeaning(f, p, b, all, k - 1, e);
      var cases := f.terms[p].cases;
      OneCaseMeaning(f, p, b, all, k, e);
      HasCaseStep(f, cases, k, ValueUnder(f, f.terms[p].cond, e), b);
    }
  }

  lemma OneCaseMeaning(f: Func, p: nat, b: nat, all: bool, k: nat, e: Env)
    requires p < |f.terms| && f.terms[p].Switch? && 0 < k <= |f.terms[p].cases| && Sized(f, e)
    ensures var (u, succ) := f.terms[p].cases[k - 1];
            Holds(CasesTerm(f, p, b, all, k), e) <==>
            || Holds(CasesTerm(f, p, b, all, k - 1), e)
            || ((all || succ == b) && ValueUnder(f, f.terms[p].cond, e) == CaseValue(f, u))
  {
    assert f.ValidTerm(p);
    var (u, succ) := f.terms[p].cases[k - 1];
    var c := f.terms[p].cond;
    assert f.IsCase(u, f.values[c].width);
    var test := Cmp(Eq, Enc(f, c), Enc(f, u));
    assert Eval(Enc(f, u), e) == CaseValue(f, u);
    assert Eval(Enc(f, c), e) == ValueUnder(f, c, e);
    assert Holds(test, e) <==> ValueUnder(f, c, e) == CaseValue(f, u);
    var prev := CasesTerm(f, p, b, all, k - 1);
    CasesShaped(f, p, b, all, k - 1);
    OneBit(f, prev, p, e);
    HoldsConnectives(prev, test, e);
  }

  lemma HasCaseStep(f: Func, cases: seq<(nat, nat)>, k: nat, x: nat, b: nat)
    requires 0 < k <= |cases|
    ensures HasCase(f, cases[..k], x) <==> HasCase(f, cases[..k - 1], x) || CaseValue(f, cases[k - 1].0) == x
    ensures HasCaseTo(f, cases[..k], x, b) <==>
            HasCaseTo(f, cases[..k - 1], x, b) || (CaseValue(f, cases[k - 1].0) == x && cases[k - 1].1 == b)
  {
    assert cases[..k][k - 1] == cases[k - 1];
    assert forall i :: 0 <= i < k - 1 ==> cases[..k][i] == cases[..k - 1][i];
  }

  /** Every analysable PHI of b equals its operand for p, unless that is undef. */
  ghost predicate PhisAgree(f: Func, p: nat, b: nat, n: nat, e: Env)
  {
    forall v: nat :: v < n && v < |f.values| && f.values[v].home == b && PhiComesFrom(f.values[v].def, p) ==>
      var u := f.values[v].def.incoming[p];
      u < |f.values| && f.values[u].analyzable && !f.values[u].def.Undef? ==> Lookup(e, v) == ValueUnder(f, u, e)
  }

  predicate PhiComesFrom(d: Def, p: nat) {
    d.Phi? && p in d.incoming
  }

  lemma NoPhisAgree(f: Func, p: nat, b: nat, e: Env)
    ensures PhisAgree(f, p, b, 0, e)
  {}

  lemma PhisAgreeStep(f: Func, p: nat, b: nat, n: nat, e: Env)
    requires 0 < n <= |f.values|
    ensures PhisAgree(f, p, b, n, e) <==>
              && PhisAgree(f, p, b, n - 1, e)
              && (ConstrainedPhi(f, p, b, n - 1) ==>
                    Lookup(e, n - 1) == ValueUnder(f, f.values[n - 1].def.incoming[p], e))
  {
    hide ValueUnder;
  }

  lemma {:induction false} PhiGuardMeaning(f: Func, p: nat, b: nat, n: nat, e: Env)
    requires f.Edge(p, b) && n <= |f.values| && Sized(f, e)
    ensures Holds(PhiGuard(f, p, b, n), e) <==> PhisAgree(f, p, b, n, e)
    decreases n
  {
    hide PhisAgree;
    if n == 0 {
      NoPhisAgree(f, p, b, e);
    } else {
      PhiGuardMeaning(f, p, b, n - 1, e);
      PhisAgreeStep(f, p, b, n, e);
      if ConstrainedPhi(f, p, b, n - 1) {
        PhiTyped(f, p, b, n - 1);
        Typing(f, n - 1);
        var u := f.values[n - 1].def.incoming[p];
        var prev := PhiGuard(f, p, b, n - 1);
        PhiGuardShaped(f, p, b, n - 1, if p <= b then b else p);
        OneBit(f, prev, if p <= b then b else p, e);
        HoldsConnectives(prev, Cmp(Eq, Enc(f, n - 1), Enc(f, u)), e);
      }
    }
  }

  predicate Distinguishes(t: Terminator) {
    match t
    case CondBr(_, ifTrue, ifFalse) => ifTrue != ifFalse
    case Switch(_, default, cases) => forall i :: 0 <= i < |cases| ==> cases[i].1 != default
    case _ => true
  }

  predicate NonDegenerate(f: Func) {
    forall p :: 0 <= p < |f.terms| ==> Distinguishes(f.terms[p])
  }

  /** The edge from p to b is open under an assignment: the terminator chooses it, by a shape that its
      guard distinguishes, and the PHIs of b agree with their operands for p. */
  ghost predicate EdgeOpen(f: Func, p: nat, b: nat, e: Env)
  {
    f.Edge(p, b) && PhisAgree(f, p, b, |f.values|, e) &&
    var x := ValueUnder(f, Condition(f, p), e); Chooses(f, p, b, x) && !Degenerate(f, p, b, x)
  }

  lemma EdgeGuardMeaning(f: Func, p: nat, b: nat, e: Env)
    requires f.Edge(p, b) && Sized(f, e)
    ensures Holds(EdgeGuard(f, p, b), e) <==> EdgeOpen(f, p, b, e)
  {
    var h := if p <= b then b else p;
    TermGuardMeaning(f, p, b, e);
    PhiGuardMeaning(f, p, b, |f.values|, e);
    TermGuardShaped(f, p, b);
    PhiGuardShaped(f, p, b, |f.values|, h);
    OneBit(f, TermGuard(f, p, b), p, e);
    OneBit(f, PhiGuard(f, p, b, |f.values|), h, e);
    HoldsConnectives(TermGuard(f, p, b), PhiGuard(f, p, b, |f.values|), e);
  }

  /** In a function without the degenerate shapes, the choice of the terminator decides. */
  lemma NotDegenerate(f: Func, p: nat, b: nat, x: nat)
    requires NonDegenerate(f) && p < |f.terms|
    ensures Chooses(f, p, b, x) ==> !Degenerate(f, p, b, x)
  {
    assert Distinguishes(f.terms[p]);
  }

  ghost predicate EntersFrom(f: Func, dt: DomTree, p: nat, b: nat, e: Env)
    requires ValidTree(f, dt)
  {
    (p, b) !in f.back && EdgeOpen(f, p, b, e) && p < |f.terms| && Holds(Guard(f, dt, p), e)
  }

  ghost predicate EntersFromSome(f: Func, dt: DomTree, b: nat, k: nat, e: Env)
    requires ValidTree(f, dt) && b < |f.terms| && k <= |f.preds[b]|
  {
    k > 0 && (EntersFromSome(f, dt, b, k - 1, e) || EntersFrom(f, dt, f.preds[b][k - 1], b, e))
  }

  lemma {:induction false} EntersFromAny(f: Func, dt: DomTree, b: nat, k: nat, e: Env)
    requires ValidTree(f, dt) && b < |f.terms| && k <= |f.preds[b]|
    ensures EntersFromSome(f, dt, b, k, e) <==> exists j :: 0 <= j < k && EntersFrom(f, dt, f.preds[b][j], b, e)
  {
    if k > 0 {
      EntersFromAny(f, dt, b, k - 1, e);
    }
  }

  /** A block's disjunction holds exactly when some predecessor has an open edge and a true guard. */
  lemma {:induction false} GuardUpToMeaning(f: Func, dt: DomTree, b: nat, k: nat, e: Env)
    requires ValidTree(f, dt) && Sized(f, e)
    requires b < |f.terms| && k <= |f.preds[b]| && (dt.Tree? ==> !HasBackPred(f, b))
    ensures Holds(GuardUpTo(f, dt, b, k), e) <==> EntersFromSome(f, dt, b, k, e)
    decreases k
  {
    if k > 0 {
      GuardUpToMeaning(f, dt, b, k - 1, e);
      var p := f.preds[b][k - 1];
      assert p in f.preds[b] && f.Edge(p, b);
      if (p, b) !in f.back {
        PredMeaning(f, dt, b, k, e);
      }
    }
  }

  lemma PredMeaning(f: Func, dt: DomTree, b: nat, k: nat, e: Env)
    requires ValidTree(f, dt) && Sized(f, e)
    requires b < |f.terms| && 0 < k <= |f.preds[b]| && (dt.Tree? ==> !HasBackPred(f, b))
    requires f.Edge(f.preds[b][k - 1], b) && (f.preds[b][k - 1], b) !in f.back
    ensures Holds(GuardUpTo(f, dt, b, k), e) <==>
            Holds(GuardUpTo(f, dt, b, k - 1), e) || EntersFrom(f, dt, f.preds[b][k - 1], b, e)
  {
    hide EdgeGuard, EdgeOpen, Guard, Shaped;
    var p := f.preds[b][k - 1];
    EdgeGuardMeaning(f, p, b, e);
    EdgeGuardShaped(f, p, b, b);
    OneBit(f, EdgeGuard(f, p, b), b, e);
    GuardShaped(f, dt, p);
    OneBit(f, Guard(f, dt, p), p, e);
    var open := Conj(EdgeGuard(f, p, b), Guard(f, dt, p));
    HoldsConnectives(EdgeGuard(f, p, b), Guard(f, dt, p), e);
    GuardUpToShaped(f, dt, b, k - 1);
    OneBit(f, GuardUpTo(f, dt, b, k - 1), b, e);
    HoldsConnectives(GuardUpTo(f, dt, b, k - 1), open, e);
  }
}
