/** PathGen: the memoising encoder of path predicates, in both modes. */
module PathGens {
  import opened BitVec
  import opened Terms
  import opened Solver
  import opened SSA
  import opened ValueEncoding
  import opened ValueGens
  import opened PathEncoding

  // ----- The ranges asserted while a guard is encoded

  ghost function TermRanges(f: Func, p: nat, b: nat): set<Term>
    requires f.Edge(p, b)
  {
    assert f.ValidTerm(p);
    match f.terms[p]
    case CondBr(c, _, _) => Ranges(f, c)
    case Switch(c, _, _) => Ranges(f, c)
    case _ => {}
  }

  ghost function PhiRanges(f: Func, p: nat, b: nat, n: nat): set<Term>
    requires f.Edge(p, b) && n <= |f.values|
    decreases n
  {
    if n == 0 then {} else
      var prev := PhiRanges(f, p, b, n - 1);
      if ConstrainedPhi(f, p, b, n - 1) then
        PhiTyped(f, p, b, n - 1);
        prev + Ranges(f, n - 1) + Ranges(f, f.values[n - 1].def.incoming[p])
      else prev
  }

  ghost function EdgeRanges(f: Func, p: nat, b: nat): set<Term>
    requires f.Edge(p, b)
  {
    TermRanges(f, p, b) + PhiRanges(f, p, b, |f.values|)
  }

  ghost function GuardRanges(f: Func, dt: DomTree, b: nat): set<Term>
    requires ValidTree(f, dt) && b < |f.terms|
    decreases b, 1, 0
  {
    if b == 0 then {}
    else if dt.Tree? && HasBackPred(f, b) then
      CommonDominatorBelow(f, dt, b);
      GuardRanges(f, dt, CommonDominator(f, dt, b, |f.preds[b]|))
    else GuardRangesUpTo(f, dt, b, |f.preds[b]|)
  }

  ghost function GuardRangesUpTo(f: Func, dt: DomTree, b: nat, k: nat): set<Term>
    requires ValidTree(f, dt) && b < |f.terms| && k <= |f.preds[b]|
    requires dt.Tree? ==> !HasBackPred(f, b)
    decreases b, 0, k
  {
    if k == 0 then {} else
      var p := f.preds[b][k - 1];
      var prev := GuardRangesUpTo(f, dt, b, k - 1);
      if (p, b) in f.back then prev
      else
        assert f.Edge(p, b);
        prev + EdgeRanges(f, p, b) + GuardRanges(f, dt, p)
  }

  /** All of them hold in every environment of a run. */
  lemma {:induction false} GuardRangesHold(f: Func, dt: DomTree, b: nat, c: Term, e: Env)
    requires ValidTree(f, dt) && b < |f.terms| && ValidEnv(f, e) && c in GuardRanges(f, dt, b)
    ensures Assigns(e, c) && Holds(c, e)
    decreases b, 1, 0
  {
    if dt.Tree? && HasBackPred(f, b) {
      CommonDominatorBelow(f, dt, b);
      GuardRangesHold(f, dt, CommonDominator(f, dt, b, |f.preds[b]|), c, e);
    } else {
      GuardRangesUpToHold(f, dt, b, |f.preds[b]|, c, e);
    }
  }

  lemma {:induction false} GuardRangesUpToHold(f: Func, dt: DomTree, b: nat, k: nat, c: Term, e: Env)
    requires ValidTree(f, dt) && b < |f.terms| && k <= |f.preds[b]| && (dt.Tree? ==> !HasBackPred(f, b))
    requires ValidEnv(f, e) && c in GuardRangesUpTo(f, dt, b, k)
    ensures Assigns(e, c) && Holds(c, e)
    decreases b, 0, k
  {
    hide EdgeRanges, GuardRanges, Holds, Assigns;
    var p := f.preds[b][k - 1];
    if c in GuardRangesUpTo(f, dt, b, k - 1) {
      GuardRangesUpToHold(f, dt, b, k - 1, c, e);
    } else {
      PredIsEdge(f, b, k - 1);
      if c in EdgeRanges(f, p, b) {
        EdgeRangesHold(f, p, b, c, e);
      } else {
        GuardRangesHold(f, dt, p, c, e);
      }
    }
  }

  lemma EdgeRangesHold(f: Func, p: nat, b: nat, c: Term, e: Env)
    requires f.Edge(p, b) && ValidEnv(f, e) && c in EdgeRanges(f, p, b)
    ensures Assigns(e, c) && Holds(c, e)
  {
    hide Ranges, PhiRanges;
    assert f.ValidTerm(p);
    if c in PhiRanges(f, p, b, |f.values|) {
      PhiRangesHold(f, p, b, |f.values|, c, e);
    } else {
      RangesHold(f, Condition(f, p), c, e);
    }
  }

  lemma {:induction false} PhiRangesHold(f: Func, p: nat, b: nat, n: nat, c: Term, e: Env)
    requires f.Edge(p, b) && n <= |f.values| && ValidEnv(f, e) && c in PhiRanges(f, p, b, n)
    ensures Assigns(e, c) && Holds(c, e)
    decreases n
  {
    if c in PhiRanges(f, p, b, n - 1) {
      PhiRangesHold(f, p, b, n - 1, c, e);
    } else {
      PhiTyped(f, p, b, n - 1);
      if c in Ranges(f, n - 1) {
        RangesHold(f, n - 1, c, e);
      } else {
        RangesHold(f, f.values[n - 1].def.incoming[p], c, e);
      }
    }
  }

  // ----- They put every variable of the guard into its ranges

  predicate AllHold(cs: set<Term>, e: Env) {
    forall c :: c in cs ==> Holds(c, e)
  }

  /** Whatever satisfies the conditions asserted with a guard has all variables of the guard inside
      the ranges annotated for them. */
  lemma {:induction false} GuardRangesCover(f: Func, dt: DomTree, b: nat, e: Env)
    requires ValidTree(f, dt) && b < |f.terms|
    requires AllHold(GuardRanges(f, dt, b), e) && Assigns(e, Guard(f, dt, b))
    ensures VarsInRanges(f, Guard(f, dt, b), e)
    decreases b, 1, 0
  {
    hide AllHold, VarsInRanges, Assigns, HasBackPred, GuardUpTo, GuardRangesUpTo;
    if b == 0 {
      NoVars(f, True, e);
    } else if dt.Tree? && HasBackPred(f, b) {
      CommonDominatorBelow(f, dt, b);
      GuardRangesCover(f, dt, CommonDominator(f, dt, b, |f.preds[b]|), e);
    } else {
      GuardRangesUpToCover(f, dt, b, |f.preds[b]|, e);
    }
  }

  lemma {:induction false} GuardRangesUpToCover(f: Func, dt: DomTree, b: nat, k: nat, e: Env)
    requires ValidTree(f, dt) && b < |f.terms| && k <= |f.preds[b]| && (dt.Tree? ==> !HasBackPred(f, b))
    requires AllHold(GuardRangesUpTo(f, dt, b, k), e) && Assigns(e, GuardUpTo(f, dt, b, k))
    ensures VarsInRanges(f, GuardUpTo(f, dt, b, k), e)
    decreases b, 0, k
  {
    hide EdgeRanges, EdgeGuard, GuardRanges, Guard, Holds, HasBackPred, InRanges;
    if k > 0 {
      var p := f.preds[b][k - 1];
      PredIsEdge(f, b, k - 1);
      var prev := GuardUpTo(f, dt, b, k - 1);
      if (p, b) !in f.back {
        VarsOfDisj(prev, Conj(EdgeGuard(f, p, b), Guard(f, dt, p)));
        VarsOfDisj(EdgeGuard(f, p, b), Guard(f, dt, p));
        EdgeRangesCover(f, p, b, e);
        GuardRangesCover(f, dt, p, e);
      }
      GuardRangesUpToCover(f, dt, b, k - 1, e);
    }
  }

  lemma VarsOfDisj(x: Term, y: Term)
    ensures Vars(Disj(x, y)) == Vars(x) + Vars(y) && Vars(Conj(x, y)) == Vars(x) + Vars(y)
  {}

  lemma NoVars(f: Func, t: Term, e: Env)
    requires Vars(t) == {}
    ensures VarsInRanges(f, t, e)
  {}

  lemma EdgeRangesCover(f: Func, p: nat, b: nat, e: Env)
    requires f.Edge(p, b) && AllHold(EdgeRanges(f, p, b), e) && Assigns(e, EdgeGuard(f, p, b))
    ensures VarsInRanges(f, EdgeGuard(f, p, b), e)
  {
    hide Ranges, PhiRanges, PhiGuard, TermGuard, Enc, Holds, InRanges;
    assert f.ValidTerm(p);
    var n := |f.values|;
    VarsOfDisj(TermGuard(f, p, b), PhiGuard(f, p, b, n));
    PhiRangesCover(f, p, b, n, e);
    TermGuardVars(f, p, b);
    if Vars(TermGuard(f, p, b)) != {} { RangesExact(f, Condition(f, p), e); }
  }

  /** A terminator's guard has the variables of its condition, or none. */
  lemma TermGuardVars(f: Func, p: nat, b: nat)
    requires f.Edge(p, b)
    ensures Vars(TermGuard(f, p, b)) == {} ||
            ((f.terms[p].CondBr? || f.terms[p].Switch?) && Encodable(f, Condition(f, p))
             && Vars(TermGuard(f, p, b)) == Vars(Enc(f, Condition(f, p))))
  {
    hide Enc;
    assert f.ValidTerm(p);
    if f.terms[p].Switch? { CasesVars(f, p, b, f.terms[p].default == b, |f.terms[p].cases|); }
  }

  lemma {:induction false} CasesVars(f: Func, p: nat, b: nat, all: bool, k: nat)
    requires p < |f.terms| && f.terms[p].Switch? && k <= |f.terms[p].cases|
    ensures Encodable(f, f.terms[p].cond)
    ensures Vars(CasesTerm(f, p, b, all, k)) == {} ||
            Vars(CasesTerm(f, p, b, all, k)) == Vars(Enc(f, f.terms[p].cond))
    decreases k
  {
    assert f.ValidTerm(p);
    if k > 0 {
      var (u, succ) := f.terms[p].cases[k - 1];
      assert f.IsCase(u, f.values[f.terms[p].cond].width);
      CasesVars(f, p, b, all, k - 1);
      var test := Cmp(Eq, Enc(f, f.terms[p].cond), Enc(f, u));
      assert Vars(Enc(f, u)) == {};
      assert Vars(test) == Vars(Enc(f, f.terms[p].cond));
      VarsOfDisj(CasesTerm(f, p, b, all, k - 1), test);
    }
  }

  lemma {:induction false} PhiRangesCover(f: Func, p: nat, b: nat, n: nat, e: Env)
    requires f.Edge(p, b) && n <= |f.values| && AllHold(PhiRanges(f, p, b, n), e) && Assigns(e, PhiGuard(f, p, b, n))
    ensures VarsInRanges(f, PhiGuard(f, p, b, n), e)
    decreases n
  {
    hide Ranges, Enc, Holds, InRanges;
    if n > 0 {
      var prev := PhiGuard(f, p, b, n - 1);
      if ConstrainedPhi(f, p, b, n - 1) {
        PhiTyped(f, p, b, n - 1);
        var u := f.values[n - 1].def.incoming[p];
        var same := Cmp(Eq, Enc(f, n - 1), Enc(f, u));
        VarsOfDisj(prev, same);
        assert Vars(same) == Vars(Enc(f, n - 1)) + Vars(Enc(f, u));
        RangesExact(f, n - 1, e);
        RangesExact(f, u, e);
      }
      PhiRangesCover(f, p, b, n - 1, e);
    }
  }

  /** Case values are constants, which bring no ranges. */
  lemma CaseHasNoRanges(f: Func, u: nat, width: nat)
    requires f.IsCase(u, width)
    ensures Encodable(f, u) && Ranges(f, u) == {}
  {
    assert Parts(f, u) == {};
    LeafParts(f, u);
  }

  lemma NothingEntersFromNone(f: Func, dt: DomTree, b: nat)
    requires ValidTree(f, dt) && b < |f.terms| && (dt.Tree? ==> !HasBackPred(f, b))
    ensures GuardUpTo(f, dt, b, 0) == False && GuardRangesUpTo(f, dt, b, 0) == {}
    ensures !Aborts(False) && Operands(False) == {}
  {}

  class PathGen {
    const f: Func
    const vg: ValueGen
    const smt: SMTSolver
    const dt: DomTree
    var Cache: map<nat, Term>

    constructor (vg: ValueGen, dt: DomTree)
      requires vg.Encoded() && ValidTree(vg.f, dt)
      ensures this.f == vg.f && this.vg == vg && this.smt == vg.smt && this.dt == dt
      ensures Encoded() && Owned() == multiset{} && Cache == map[]
    {
      this.f, this.vg, this.smt, this.dt, Cache := vg.f, vg, vg.smt, dt, map[];
      new;
      CacheRefsEmpty(Cache, |f.terms|);
    }

    ghost predicate Encoded()
      reads this
    {
      && f == vg.f && smt == vg.smt && ValidTree(f, dt)
      && forall b :: b in Cache ==> b < |f.terms| && Cache[b] == Guard(f, dt, b)
    }

    ghost predicate Valid()
      reads this, vg, smt
    {
      Encoded() && vg.Valid() && forall b :: b in Cache ==> GuardRanges(f, dt, b) <= smt.asserted
    }

    ghost function Owned(): multiset<Term>
      reads this
    {
      CacheRefs(Cache, |f.terms|)
    }

    /** The live references: those of others, and one for each entry of the two caches. */
    ghost predicate Balanced(others: multiset<Term>)
      reads this, vg, smt
    {
      smt.refs == others + vg.Owned() + Owned()
    }

    /** The caches only grow, and only at blocks numbered below b. */
    ghost predicate Grown(b: nat, before: map<nat, Term>, after: map<nat, Term>) {
      before.Keys <= after.Keys && forall k :: k in after && k >= b ==> k in before
    }

    lemma Cached(b: nat, others: multiset<Term>)
      requires Encoded() && Balanced(others) && b in Cache
      ensures Cache[b] in smt.refs && Cache[b] in Owned()
    {
      CacheRefsHas(Cache, |f.terms|, b);
    }

    method IsBackedge(p: nat, b: nat) returns (r: bool)
      ensures r <==> (p, b) in f.back
    {
      r := (p, b) in f.back;
    }

    method FindCommonDominator(b: nat) returns (dom: nat)
      requires Encoded() && dt.Tree? && 0 < b < |f.terms|
      ensures |f.preds[b]| >= 1 && dom == CommonDominator(f, dt, b, |f.preds[b]|) < b
    {
      CommonDominatorBelow(f, dt, b);
      dom := f.preds[b][0];
      var i := 1;
      while i < |f.preds[b]|
        invariant 1 <= i <= |f.preds[b]|
        invariant dom == CommonDominator(f, dt, b, i)
      {
        dom := dt.nearest(dom, f.preds[b][i]);
        i := i + 1;
      }
    }

    method HasBackedgeInto(b: nat) returns (r: bool)
      requires b < |f.preds|
      ensures r <==> HasBackPred(f, b)
    {
      var i := 0;
      while i < |f.preds[b]|
        invariant 0 <= i <= |f.preds[b]|
        invariant forall j :: 0 <= j < i ==> (f.preds[b][j], b) !in f.back
      {
        r := IsBackedge(f.preds[b][i], b);
        if r {
          return;
        }
        i := i + 1;
      }
      r := false;
    }

    /** The path predicate of a block.  The reference stays with the cache. */
    method Get(b: nat, ghost others: multiset<Term>) returns (g: Term)
      requires Valid() && Balanced(others) && b < |f.terms|
      modifies this`Cache, vg`Cache, smt
      ensures Valid() && Balanced(others)
      ensures g == Guard(f, dt, b) && g in smt.refs && g in Owned()
      ensures Grown(b + 1, old(Cache), Cache) && old(vg.Cache.Keys) <= vg.Cache.Keys
      ensures smt.asserted == old(smt.asserted) + GuardRanges(f, dt, b)
      decreases b, 3
    {
      hide CacheRefs, HasBackPred, Ranges, Enc;
      if b in Cache {
        g := Cache[b];
        Cached(b, others);
        return;
      }
      // The entry block has a true guard.
      if b == 0 {
        g := smt.Build(True);
        Store(b, g, others);
        return;
      }
      if dt.Tree? {
        // Fall back to the common dominator if there is any back edge.
        var fallBack := HasBackedgeInto(b);
        if fallBack {
          var dom := FindCommonDominator(b);
          g := Get(dom, others);
          return;
        }
      }
      g := Disjunction(b, others);
      Store(b, g, others);
    }

    method Store(b: nat, g: Term, ghost others: multiset<Term>)
      requires Valid() && b < |f.terms| && b !in Cache && g == Guard(f, dt, b)
      requires smt.refs == others + vg.Owned() + Owned() + multiset{g}
      requires GuardRanges(f, dt, b) <= smt.asserted
      modifies this`Cache
      ensures Valid() && Balanced(others) && g in smt.refs && g in Owned()
      ensures Cache == old(Cache)[b := g]
    {
      hide Guard, GuardRanges, CacheRefs, Ranges, Enc;
      CacheRefsInsert(Cache, |f.terms|, b, g);
      Cache := Cache[b := g];
      Cached(b, others);
    }

    /** The disjunction over the predecessors, as a new reference. */
    method Disjunction(b: nat, ghost others: multiset<Term>) returns (g: Term)
      requires Valid() && Balanced(others) && 0 < b < |f.terms| && b !in Cache
      requires dt.Tree? ==> !HasBackPred(f, b)
      modifies this`Cache, vg`Cache, smt
      ensures Valid() && smt.refs == others + vg.Owned() + Owned() + multiset{g}
      ensures g == GuardUpTo(f, dt, b, |f.preds[b]|)
      ensures Grown(b, old(Cache), Cache) && old(vg.Cache.Keys) <= vg.Cache.Keys
      ensures smt.asserted == old(smt.asserted) + GuardRangesUpTo(f, dt, b, |f.preds[b]|)
      decreases b, 2
    {
      hide EdgeGuard, Guard, GuardUpTo, GuardRanges, GuardRangesUpTo, CacheRefs, HasBackPred, Enc;
      hide Width, Aborts, Operands, Ranges, ValidTree, Encodable;
      ghost var before := smt.asserted;
      NothingEntersFromNone(f, dt, b);
      g := smt.Build(False);
      var i := 0;
      while i < |f.preds[b]|
        invariant 0 <= i <= |f.preds[b]|
        invariant smt.asserted == before + GuardRangesUpTo(f, dt, b, i)
        invariant Valid() && smt.refs == others + vg.Owned() + Owned() + multiset{g}
        invariant g == GuardUpTo(f, dt, b, i)
        invariant Grown(b, old(Cache), Cache) && old(vg.Cache.Keys) <= vg.Cache.Keys
      {
        g := VisitPredecessor(b, i, g, others, before);
        i := i + 1;
      }
    }

    method VisitPredecessor(b: nat, i: nat, g: Term, ghost others: multiset<Term>, ghost before: set<Term>)
      returns (g': Term)
      requires Valid() && smt.refs == others + vg.Owned() + Owned() + multiset{g}
      requires b < |f.terms| && i < |f.preds[b]| && (dt.Tree? ==> !HasBackPred(f, b))
      requires g == GuardUpTo(f, dt, b, i) && smt.asserted == before + GuardRangesUpTo(f, dt, b, i)
      modifies this`Cache, vg`Cache, smt
      ensures Valid() && smt.refs == others + vg.Owned() + Owned() + multiset{g'}
      ensures g' == GuardUpTo(f, dt, b, i + 1) && smt.asserted == before + GuardRangesUpTo(f, dt, b, i + 1)
      ensures Grown(b, old(Cache), Cache) && old(vg.Cache.Keys) <= vg.Cache.Keys
      decreases b, 1
    {
      var pred := f.preds[b][i];
      PredIsEdge(f, b, i);
      g' := g;
      var back := IsBackedge(pred, b);
      // Skip back edges; there are none with a dominator tree.
      if !back {
        g' := AddPredecessor(b, pred, g, others);
      }
    }

    method AddPredecessor(b: nat, pred: nat, g: Term, ghost others: multiset<Term>) returns (g': Term)
      requires Valid() && smt.refs == others + vg.Owned() + Owned() + multiset{g}
      requires f.Edge(pred, b) && pred < b && Width(g) == 1
      modifies this`Cache, vg`Cache, smt
      ensures Valid() && smt.refs == others + vg.Owned() + Owned() + multiset{g'}
      ensures g' == Disj(g, Conj(EdgeGuard(f, pred, b), Guard(f, dt, pred)))
      ensures Grown(b, old(Cache), Cache) && old(vg.Cache.Keys) <= vg.Cache.Keys
      ensures smt.asserted == old(smt.asserted) + EdgeRanges(f, pred, b) + GuardRanges(f, dt, pred)
      decreases b, 0
    {
      hide EdgeGuard, Guard, CacheRefs, Ranges, GuardRanges, EdgeRanges, Enc, Encodable, ValidTree, HasBackPred;
      assert smt.refs == others + Owned() + multiset{g} + vg.Owned();
      var edge := GetEdgeGuard(pred, b, others + Owned() + multiset{g});
      assert smt.refs == others + multiset{g} + multiset{edge} + vg.Owned() + Owned();
      var br := JoinPredecessor(pred, edge, others + multiset{g});
      assert smt.refs == others + vg.Owned() + Owned() + multiset{g} + multiset{br};
      g' := smt.Combine(Disj(g, br), g, br, others + vg.Owned() + Owned());
    }

    /** The edge condition and the predecessor's own guard. */
    method JoinPredecessor(pred: nat, edge: Term, ghost others: multiset<Term>) returns (br: Term)
      requires Valid() && Balanced(others + multiset{edge}) && pred < |f.terms| && Width(edge) == 1
      modifies this`Cache, vg`Cache, smt
      ensures Valid() && smt.refs == others + vg.Owned() + Owned() + multiset{br}
      ensures br == Conj(edge, Guard(f, dt, pred))
      ensures Grown(pred + 1, old(Cache), Cache) && old(vg.Cache.Keys) <= vg.Cache.Keys
      ensures smt.asserted == old(smt.asserted) + GuardRanges(f, dt, pred)
      decreases pred, 4
    {
      var at := Get(pred, others + multiset{edge});
      br := ReleaseEdge(edge, at, others + vg.Owned() + Owned());
    }

    method ReleaseEdge(edge: Term, at: Term, ghost base: multiset<Term>) returns (br: Term)
      requires smt.refs == base + multiset{edge} && at in smt.refs && Width(edge) == Width(at)
      modifies smt`refs
      ensures br == Conj(edge, at) && smt.refs == base + multiset{br}
    {
      br := smt.Convert(Conj(edge, at), edge, base);
    }

    method GetEdgeGuard(pred: nat, b: nat, ghost held: multiset<Term>) returns (edge: Term)
      requires Encoded() && vg.Valid() && smt.refs == held + vg.Owned() && f.Edge(pred, b)
      modifies vg`Cache, smt
      ensures vg.Valid() && smt.refs == held + vg.Owned() + multiset{edge}
      ensures edge == EdgeGuard(f, pred, b) && old(vg.Cache.Keys) <= vg.Cache.Keys
      ensures smt.asserted == old(smt.asserted) + EdgeRanges(f, pred, b)
    {
      hide Enc, CacheRefs, TermGuard, PhiGuard, TermRanges, PhiRanges;
      var term := GetTermGuard(pred, b, held);
      assert smt.refs == held + multiset{term} + vg.Owned();
      var pn := GetPHIGuard(pred, b, held + multiset{term});
      assert smt.refs == held + vg.Owned() + multiset{term} + multiset{pn};
      edge := smt.Combine(Conj(term, pn), term, pn, held + vg.Owned());
    }

    method GetPHIGuard(pred: nat, b: nat, ghost held: multiset<Term>) returns (e: Term)
      requires Encoded() && vg.Valid() && smt.refs == held + vg.Owned() && f.Edge(pred, b)
      modifies vg`Cache, smt
      ensures vg.Valid() && smt.refs == held + vg.Owned() + multiset{e}
      ensures e == PhiGuard(f, pred, b, |f.values|) && old(vg.Cache.Keys) <= vg.Cache.Keys
      ensures smt.asserted == old(smt.asserted) + PhiRanges(f, pred, b, |f.values|)
    {
      hide Enc, CacheRefs, Ranges;
      e := smt.Build(True);
      var i := 0;
      while i < |f.values|
        invariant 0 <= i <= |f.values|
        invariant smt.asserted == old(smt.asserted) + PhiRanges(f, pred, b, i)
        invariant vg.Valid() && smt.refs == held + vg.Owned() + multiset{e}
        invariant e == PhiGuard(f, pred, b, i) && old(vg.Cache.Keys) <= vg.Cache.Keys
      {
        if f.values[i].home == b && f.values[i].def.Phi? {
          assert f.ValidValue(i) && f.ValidIncoming(i, b);
          var v := f.values[i].def.incoming[pred];
          // Skip undef and non-integral types.
          if !f.values[v].def.Undef? && f.values[v].analyzable {
            e := AddPhi(pred, b, i, e, held);
          }
        }
        i := i + 1;
      }
    }

    method AddPhi(pred: nat, b: nat, i: nat, e: Term, ghost held: multiset<Term>) returns (e': Term)
      requires Encoded() && vg.Valid() && smt.refs == held + vg.Owned() + multiset{e}
      requires f.Edge(pred, b) && ConstrainedPhi(f, pred, b, i) && Width(e) == 1
      modifies vg`Cache, smt
      ensures vg.Valid() && smt.refs == held + vg.Owned() + multiset{e'}
      ensures Encodable(f, i) && Encodable(f, f.values[i].def.incoming[pred])
      ensures e' == Conj(e, Cmp(Eq, Enc(f, i), Enc(f, f.values[i].def.incoming[pred])))
      ensures old(vg.Cache.Keys) <= vg.Cache.Keys
      ensures smt.asserted == old(smt.asserted) + Ranges(f, i) + Ranges(f, f.values[i].def.incoming[pred])
    {
      hide Enc, CacheRefs, Ranges, Pow2;
      PhiTyped(f, pred, b, i);
      assert smt.refs == held + multiset{e} + vg.Owned();
      var x := vg.Get(i, held + multiset{e});
      var y := vg.Get(f.values[i].def.incoming[pred], held + multiset{e});
      vg.Cached(i, held + multiset{e});
      var pn := smt.Build(Cmp(Eq, x, y));
      assert smt.refs == held + vg.Owned() + multiset{e} + multiset{pn};
      e' := smt.Combine(Conj(e, pn), e, pn, held + vg.Owned());
    }

    method GetTermGuard(pred: nat, b: nat, ghost held: multiset<Term>) returns (e: Term)
      requires Encoded() && vg.Valid() && smt.refs == held + vg.Owned() && f.Edge(pred, b)
      modifies vg`Cache, smt
      ensures vg.Valid() && smt.refs == held + vg.Owned() + multiset{e}
      ensures e == TermGuard(f, pred, b) && old(vg.Cache.Keys) <= vg.Cache.Keys
      ensures smt.asserted == old(smt.asserted) + TermRanges(f, pred, b)
    {
      hide Enc, CacheRefs, Ranges;
      assert f.ValidTerm(pred);
      match f.terms[pred] {
        case CondBr(c, ifTrue, _) => e := GetBranchGuard(pred, b, held);
        case Switch(_, default, cases) =>
          if default != b {
            e := GetCasesGuard(pred, b, false, held);
          } else {
            var any := GetCasesGuard(pred, b, true, held);
            e := smt.Convert(Not(any), any, held + vg.Owned());
          }
        case Br(_) => e := smt.Build(True);
        case IndirectBr(_) => e := smt.Build(True);
        case Invoke(_, _) => e := smt.Build(True);
      }
    }

    method GetBranchGuard(pred: nat, b: nat, ghost held: multiset<Term>) returns (e: Term)
      requires Encoded() && vg.Valid() && smt.refs == held + vg.Owned() && f.Edge(pred, b) && f.terms[pred].CondBr?
      modifies vg`Cache, smt
      ensures vg.Valid() && smt.refs == held + vg.Owned() + multiset{e}
      ensures e == TermGuard(f, pred, b) && old(vg.Cache.Keys) <= vg.Cache.Keys
      ensures smt.asserted == old(smt.asserted) + TermRanges(f, pred, b)
    {
      hide Enc, CacheRefs, Ranges;
      assert f.ValidTerm(pred);
      var CondBr(c, ifTrue, ifFalse) := f.terms[pred];
      e := vg.Get(c, held);
      smt.Incref(e);
      if ifTrue != b {
        assert ifFalse == b;
        e := smt.Convert(Not(e), e, held + vg.Owned());
      }
    }

    lemma SwitchTyped(pred: nat)
      requires pred < |f.terms| && f.terms[pred].Switch?
      ensures var Switch(c, _, cases) := f.terms[pred];
              Encodable(f, c) && forall i :: 0 <= i < |cases| ==> f.IsCase(cases[i].0, f.values[c].width)
    {
      assert f.ValidTerm(pred);
    }

    /** The disjunction of the tests for some cases: those that lead to b, or all of them. */
    method GetCasesGuard(pred: nat, b: nat, all: bool, ghost held: multiset<Term>) returns (e: Term)
      requires Encoded() && vg.Valid() && smt.refs == held + vg.Owned() && f.Edge(pred, b) && f.terms[pred].Switch?
      modifies vg`Cache, smt
      ensures vg.Valid() && smt.refs == held + vg.Owned() + multiset{e}
      ensures e == CasesTerm(f, pred, b, all, |f.terms[pred].cases|) && old(vg.Cache.Keys) <= vg.Cache.Keys
      ensures smt.asserted == old(smt.asserted) + TermRanges(f, pred, b)
    {
      hide Enc, CacheRefs, Ranges;
      var Switch(c, _, cases) := f.terms[pred];
      SwitchTyped(pred);
      var l := vg.Get(c, held);
      e := smt.Build(False);
      var i := 0;
      while i < |cases|
        invariant 0 <= i <= |cases|
        invariant smt.asserted == old(smt.asserted) + TermRanges(f, pred, b)
        invariant vg.Valid() && smt.refs == held + vg.Owned() + multiset{e} && c in vg.Cache
        invariant e == CasesTerm(f, pred, b, all, i) && old(vg.Cache.Keys) <= vg.Cache.Keys
      {
        if all || cases[i].1 == b {
          e := AddCase(c, l, cases[i].0, e, held);
        }
        i := i + 1;
      }
    }

    method AddCase(c: nat, l: Term, u: nat, e: Term, ghost held: multiset<Term>) returns (e': Term)
      requires Encoded() && vg.Valid() && smt.refs == held + vg.Owned() + multiset{e} && Width(e) == 1
      requires Encodable(f, c) && c in vg.Cache && l == Enc(f, c) && f.IsCase(u, f.values[c].width)
      modifies vg`Cache, smt
      ensures vg.Valid() && smt.refs == held + vg.Owned() + multiset{e'} && c in vg.Cache
      ensures e' == Disj(e, Cmp(Eq, l, Enc(f, u))) && old(vg.Cache.Keys) <= vg.Cache.Keys
      ensures smt.asserted == old(smt.asserted)
    {
      hide Enc, CacheRefs, Ranges;
      CaseHasNoRanges(f, u, f.values[c].width);
      assert smt.refs == held + multiset{e} + vg.Owned();
      var r := vg.Get(u, held + multiset{e});
      vg.Cached(c, held + multiset{e});
      var cond := smt.Build(Cmp(Eq, l, r));
      assert smt.refs == held + vg.Owned() + multiset{e} + multiset{cond};
      e' := smt.Combine(Disj(e, cond), e, cond, held + vg.Owned());
    }

    /** The destructor releases the reference of every cache entry. */
    method Delete(ghost others: multiset<Term>)
      requires Encoded() && Balanced(others)
      modifies this`Cache, smt`refs
      ensures smt.refs == others + vg.Owned()
    {
      hide Guard;
      var b := 0;
      while b < |f.terms|
        invariant 0 <= b <= |f.terms|
        invariant forall j :: 0 <= j < b ==> j !in Cache
        invariant Balanced(others)
      {
        if b in Cache {
          Release(b, others);
        }
        b := b + 1;
      }
      CacheRefsEmpty(Cache, |f.terms|);
    }

    method Release(b: nat, ghost others: multiset<Term>)
      requires smt == vg.smt && Balanced(others) && b in Cache && b < |f.terms|
      modifies this`Cache, smt`refs
      ensures Balanced(others) && Cache == old(Cache) - {b}
    {
      hide CacheRefs;
      CacheRefsHas(Cache, |f.terms|, b);
      CacheRefsRemove(Cache, |f.terms|, b);
      smt.Decref(Cache[b]);
      Cache := Cache - {b};
    }
  }
}
