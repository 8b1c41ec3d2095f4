/** ValueGen: the memoising encoder of values.  Every method returns the formula that
    ValueEncoding.Enc defines, and accounts for every solver reference it takes. */
module ValueGens {
  import opened BitVec
  import opened CRanges
  import opened Terms
  import opened Solver
  import opened RangeMetadata
  import opened SSA
  import opened ValueEncoding

  // ----- The references a cache holds: one for each of its entries

  ghost function CacheRefs(m: map<nat, Term>, n: nat): multiset<Term> {
    if n == 0 then multiset{}
    else CacheRefs(m, n - 1) + if n - 1 in m then multiset{m[n - 1]} else multiset{}
  }

  lemma {:induction false} CacheRefsUnchanged(m: map<nat, Term>, m': map<nat, Term>, n: nat)
    requires forall k :: 0 <= k < n ==> (k in m <==> k in m') && (k in m ==> m[k] == m'[k])
    ensures CacheRefs(m, n) == CacheRefs(m', n)
  {
    if n > 0 {
      CacheRefsUnchanged(m, m', n - 1);
    }
  }

  lemma {:induction false} CacheRefsInsert(m: map<nat, Term>, n: nat, k: nat, t: Term)
    requires k < n && k !in m
    ensures CacheRefs(m[k := t], n) == CacheRefs(m, n) + multiset{t}
  {
    if k == n - 1 {
      CacheRefsUnchanged(m, m[k := t], n - 1);
    } else {
      CacheRefsInsert(m, n - 1, k, t);
    }
  }

  lemma {:induction false} CacheRefsRemove(m: map<nat, Term>, n: nat, k: nat)
    requires k < n && k in m
    ensures CacheRefs(m, n) == CacheRefs(m - {k}, n) + multiset{m[k]}
  {
    assert m == (m - {k})[k := m[k]];
    CacheRefsInsert(m - {k}, n, k, m[k]);
  }

  lemma CacheRefsHas(m: map<nat, Term>, n: nat, k: nat)
    requires k < n && k in m
    ensures m[k] in CacheRefs(m, n)
  {
    CacheRefsRemove(m, n, k);
  }

  lemma {:induction false} CacheRefsEmpty(m: map<nat, Term>, n: nat)
    requires forall k :: 0 <= k < n ==> k !in m
    ensures CacheRefs(m, n) == multiset{}
  {
    if n > 0 {
      CacheRefsEmpty(m, n - 1);
    }
  }

  // ----- The assertions that come with encoded values

  function RangeAsserts(f: Func, v: nat): set<Term>
    requires v < |f.values|
  {
    RangeTerms(Fresh(f, v), f.values[v].ranges)
  }

  /** The values whose formulas the formula of v is built from. */
  function Parts(f: Func, v: nat): (us: set<nat>)
    requires Encodable(f, v)
    ensures forall u :: u in us ==> u < v && Encodable(f, u)
  {
    Typing(f, v);
    match f.values[v].def
    case Trunc(a) => {a}
    case ZExt(a) => {a}
    case SExt(a) => {a}
    case PtrToInt(a) => {a}
    case BitCast(a) => if f.values[a].analyzable then {a} else {}
    case Binary(_, a, b) => {a, b}
    case ICmp(_, a, b) => {a, b}
    case Select(c, a, b) => {c, a, b}
    case ExtractValue(agg, _) =>
      if f.values[agg].def.WithOverflow? then
        Typing(f, agg);
        {f.values[agg].def.a, f.values[agg].def.b}
      else {}
    case Gep(base, idxs) => {base} + IndexParts(f, idxs, |idxs|)
    case _ => {}
  }

  /** The variable ones of the first k indices. */
  function IndexParts(f: Func, idxs: seq<Index>, k: nat): (us: set<nat>)
    requires k <= |idxs|
    ensures forall u :: u in us <==> exists i :: 0 <= i < k && !IsConstIndex(f, idxs[i]) && u == idxs[i].v
  {
    if k == 0 then {}
    else IndexParts(f, idxs, k - 1) + if IsConstIndex(f, idxs[k - 1]) then {} else {idxs[k - 1].v}
  }

  /** All ranges that are asserted while v is encoded: its own, and those of its parts. */
  function Ranges(f: Func, v: nat): set<Term>
    requires Encodable(f, v)
    decreases v
  {
    RangeAsserts(f, v) + set u, c | u in Parts(f, v) && c in Ranges(f, u) :: c
  }

  function RangesOf(f: Func, us: set<nat>): set<Term>
    requires forall u :: u in us ==> Encodable(f, u)
  {
    set u, c | u in us && c in Ranges(f, u) :: c
  }

  lemma RangesAre(f: Func, v: nat)
    requires Encodable(f, v)
    ensures Ranges(f, v) == RangeAsserts(f, v) + RangesOf(f, Parts(f, v))
  {
  }

  /** Only PHIs and opaque values have ranges of their own. */
  lemma RangesOfParts(f: Func, v: nat, us: set<nat>)
    requires Encodable(f, v) && !f.values[v].def.Phi? && !f.values[v].def.Opaque? && us == Parts(f, v)
    ensures Ranges(f, v) == RangesOf(f, us)
  {
    hide Ranges;
    RangesAre(f, v);
    NoRanges(f, v);
  }

  lemma CastParts(f: Func, v: nat)
    requires Encodable(f, v)
    requires var d := f.values[v].def;
             || d.Trunc? || d.ZExt? || d.SExt? || d.PtrToInt?
             || (d.BitCast? && d.a < |f.values| && f.values[d.a].analyzable)
    ensures Encodable(f, f.values[v].def.a) && Ranges(f, v) == Ranges(f, f.values[v].def.a)
  {
    hide Ranges;
    Typing(f, v);
    RangesOfParts(f, v, {f.values[v].def.a});
    RangesOfMore(f, {}, f.values[v].def.a);
  }

  lemma OperationParts(f: Func, v: nat)
    requires Encodable(f, v) && (f.values[v].def.Binary? || f.values[v].def.ICmp? || f.values[v].def.Select?)
    ensures var d := f.values[v].def;
            && Encodable(f, d.a) && Encodable(f, d.b)
            && (!d.Select? ==> Ranges(f, v) == RangesOf(f, {d.a, d.b}))
            && (d.Select? ==> Encodable(f, d.c) && Ranges(f, v) == Ranges(f, d.c) + RangesOf(f, {d.a, d.b}))
  {
    hide Ranges;
    Typing(f, v);
    var d := f.values[v].def;
    RangesOfParts(f, v, Parts(f, v));
    if d.Select? {
      RangesOfMore(f, {d.a, d.b}, d.c);
      assert Parts(f, v) == {d.a, d.b} + {d.c};
    }
  }

  lemma OverflowParts(f: Func, v: nat)
    requires Encodable(f, v) && f.values[v].def.ExtractValue? && f.values[v].def.agg < |f.values|
    requires f.values[f.values[v].def.agg].def.WithOverflow?
    ensures var d := f.values[f.values[v].def.agg].def;
            Encodable(f, d.a) && Encodable(f, d.b) && Ranges(f, v) == RangesOf(f, {d.a, d.b})
  {
    hide Ranges;
    Typing(f, v);
    Typing(f, f.values[v].def.agg);
    RangesOfParts(f, v, Parts(f, v));
  }

  /** The ranges asserted once the base and the first k indices are encoded. */
  ghost function GepRanges(f: Func, v: nat, k: nat): set<Term>
    requires Encodable(f, v) && f.values[v].def.Gep? && k <= |f.values[v].def.indices|
  {
    Typing(f, v);
    var Gep(base, idxs) := f.values[v].def;
    if k == 0 then Ranges(f, base)
    else GepRanges(f, v, k - 1) +
         if IsConstIndex(f, idxs[k - 1]) then {} else assert f.ValidIndex(idxs[k - 1]); Ranges(f, idxs[k - 1].v)
  }

  lemma GepStart(f: Func, v: nat)
    requires Encodable(f, v) && f.values[v].def.Gep? && f.WellTypedDef(v)
    ensures var Gep(base, idxs) := f.values[v].def;
            && f.IsOperand(v, base) && GepRanges(f, v, 0) == Ranges(f, base)
            && GepTerm(f, v, 0) == Enc(f, base) && GepConst(f, idxs, 0) == 0
  {
    hide Ranges, Enc, Pow2;
    Typing(f, v);
  }

  lemma {:induction false} GepRangesAre(f: Func, v: nat, k: nat)
    requires Encodable(f, v) && f.values[v].def.Gep? && k <= |f.values[v].def.indices|
    ensures var Gep(base, idxs) := f.values[v].def;
            && (forall u :: u in {base} + IndexParts(f, idxs, k) ==> Encodable(f, u))
            && GepRanges(f, v, k) == RangesOf(f, {base} + IndexParts(f, idxs, k))
  {
    hide Ranges, RangesOf, Pow2, IndexParts;
    Typing(f, v);
    var Gep(base, idxs) := f.values[v].def;
    if k == 0 {
      RangesOfMore(f, {}, base);
      assert {base} + IndexParts(f, idxs, 0) == {base};
    } else {
      GepRangesAre(f, v, k - 1);
      var i, us := idxs[k - 1], {base} + IndexParts(f, idxs, k - 1);
      assert f.ValidIndex(i);
      if IsConstIndex(f, i) {
        assert {base} + IndexParts(f, idxs, k) == us;
      } else {
        RangesOfMore(f, us, i.v);
        assert {base} + IndexParts(f, idxs, k) == us + {i.v};
      }
    }
  }

  lemma GepParts(f: Func, v: nat)
    requires Encodable(f, v) && f.values[v].def.Gep?
    ensures Ranges(f, v) == GepRanges(f, v, |f.values[v].def.indices|)
  {
    hide Ranges;
    GepRangesAre(f, v, |f.values[v].def.indices|);
    RangesOfParts(f, v, Parts(f, v));
  }

  lemma LeafParts(f: Func, v: nat)
    requires Encodable(f, v) && Parts(f, v) == {}
    ensures Ranges(f, v) == RangeAsserts(f, v)
    ensures !f.values[v].def.Phi? && !f.values[v].def.Opaque? ==> Ranges(f, v) == {}
  {
    if !f.values[v].def.Phi? && !f.values[v].def.Opaque? { NoRanges(f, v); }
  }

  lemma RangesOfMore(f: Func, us: set<nat>, u: nat)
    requires Encodable(f, u) && forall w :: w in us ==> Encodable(f, w)
    ensures RangesOf(f, us + {u}) == RangesOf(f, us) + Ranges(f, u)
    ensures RangesOf(f, {u}) == Ranges(f, u) && RangesOf(f, {}) == {}
  {
  }

  lemma NoRanges(f: Func, v: nat)
    requires Encodable(f, v) && !f.values[v].def.Phi? && !f.values[v].def.Opaque?
    ensures RangeAsserts(f, v) == {}
  {
    assert f.ValidValue(v);
  }

  /** Every assertion made while a value is encoded holds in every environment of a run. */
  lemma {:induction false} RangesHold(f: Func, v: nat, c: Term, e: Env)
    requires Encodable(f, v) && ValidEnv(f, e) && c in Ranges(f, v)
    ensures Assigns(e, c) && Holds(c, e)
    decreases v
  {
    RangesAre(f, v);
    if c in RangeAsserts(f, v) {
      OwnRangesHold(f, v, c, e);
    } else {
      var u :| u in Parts(f, v) && c in Ranges(f, u);
      RangesHold(f, u, c, e);
    }
  }

  lemma OwnRangesHold(f: Func, v: nat, c: Term, e: Env)
    requires v < |f.values| && ValidEnv(f, e) && c in RangeAsserts(f, v)
    ensures Assigns(e, c) && Holds(c, e)
  {
    var x := f.values[v];
    assert f.ValidValue(v);
    RangeTermsAre(Fresh(f, v), x.ranges);
    var i :| 0 <= i < |x.ranges| && x.ranges[i].0 != x.ranges[i].1
      && c == RangeTerm(Fresh(f, v), x.ranges[i].0, x.ranges[i].1);
    assert InRanges(f, v, e);
    RangeTermMeaning(Fresh(f, v), x.ranges[i].0, x.ranges[i].1, e);
    RangeTermVars(Fresh(f, v), x.ranges[i].0, x.ranges[i].1);
  }

  // ----- They are exactly what the formula needs

  ghost function VarsOf(f: Func, us: set<nat>): set<(nat, nat)>
    requires forall u :: u in us ==> Encodable(f, u)
  {
    set u, x | u in us && x in Vars(Enc(f, u)) :: x
  }

  /** Every variable of the formula lies in the ranges annotated for it. */
  ghost predicate VarsInRanges(f: Func, t: Term, e: Env) {
    forall x :: x in Vars(t) ==> x.1 < |f.values| && InRanges(f, x.1, e)
  }

  /** The range conditions of v say neither more nor less than that every variable of its formula lies
      in the ranges annotated for it. */
  lemma {:induction false} RangesExact(f: Func, v: nat, e: Env)
    requires Encodable(f, v) && Assigns(e, Enc(f, v))
    ensures (forall c :: c in Ranges(f, v) ==> Holds(c, e)) <==> VarsInRanges(f, Enc(f, v), e)
    decreases v
  {
    hide Enc, Holds, InRanges, RangeAsserts, Parts, Ranges;
    RangesAre(f, v);
    if IsLeaf(f, v) {
      LeafIsFresh(f, v);
      OwnRangesExact(f, v, e);
    } else {
      NoRanges(f, v);
      VarsOfParts(f, v);
      forall u | u in Parts(f, v)
        ensures (forall c :: c in Ranges(f, u) ==> Holds(c, e)) <==> VarsInRanges(f, Enc(f, u), e)
      {
        assert Vars(Enc(f, u)) <= Vars(Enc(f, v));
        RangesExact(f, u, e);
      }
    }
  }

  lemma LeafIsFresh(f: Func, v: nat)
    requires Encodable(f, v) && IsLeaf(f, v)
    ensures Enc(f, v) == Fresh(f, v) && Vars(Enc(f, v)) == {(f.values[v].width, v)} && Parts(f, v) == {}
  {
    Typing(f, v);
  }

  lemma OwnRangesExact(f: Func, v: nat, e: Env)
    requires Encodable(f, v) && Lookup(e, v) < Pow2(f.values[v].width)
    ensures (forall c :: c in RangeAsserts(f, v) ==> Holds(c, e)) <==> InRanges(f, v, e)
  {
    hide RangeTerm, RangeTerms, Holds, Pow2;
    var t, md := Fresh(f, v), f.values[v].ranges;
    RangeTermsAre(t, md);
    forall i | 0 <= i < |md| && md[i].0 != md[i].1
      ensures RangeTerm(t, md[i].0, md[i].1) in RangeTerms(t, md)
      ensures Holds(RangeTerm(t, md[i].0, md[i].1), e) <==>
              CRange(f.values[v].width, md[i].0, md[i].1).Contains(Lookup(e, v))
    {
      RangeTermMeaning(t, md[i].0, md[i].1, e);
    }
  }

  lemma VarsOfShift(f: Func, v: nat)
    requires Encodable(f, v) && f.values[v].def.Binary?
    ensures Vars(Enc(f, v)) == VarsOf(f, Parts(f, v))
  {
    hide Pow2, CeilLog2, ShiftTerm;
    Typing(f, v);
    var Binary(op, a, b) := f.values[v].def;
    assert VarsOf(f, {a, b}) == Vars(Enc(f, a)) + Vars(Enc(f, b));
    if !op.Plain? { ShiftTermVars(ShiftOp(op), Enc(f, a), Enc(f, b)); }
  }

  lemma VarsOfGep(f: Func, v: nat)
    requires Encodable(f, v) && f.values[v].def.Gep?
    ensures Vars(Enc(f, v)) == VarsOf(f, Parts(f, v))
  {
    Typing(f, v);
    var Gep(base, idxs) := f.values[v].def;
    VarsOfGepTerm(f, v, |idxs|);
    assert Vars(Enc(f, v)) == Vars(GepTerm(f, v, |idxs|));
  }

  lemma VarsOfMore(f: Func, us: set<nat>, u: nat)
    requires Encodable(f, u) && forall w :: w in us ==> Encodable(f, w)
    ensures VarsOf(f, us + {u}) == VarsOf(f, us) + Vars(Enc(f, u)) && VarsOf(f, {u}) == Vars(Enc(f, u))
  {
    hide Enc;
  }

  lemma ScaledIndexVars(f: Func, t: Term, i: Index)
    requires f.ptrSize >= 1 && i.Element?
    ensures Vars(ScaledIndex(f, t, i)) == Vars(t)
  {
    hide Pow2;
  }

  lemma {:induction false} VarsOfGepTerm(f: Func, v: nat, k: nat)
    requires Encodable(f, v) && f.values[v].def.Gep? && k <= |f.values[v].def.indices|
    ensures var Gep(base, idxs) := f.values[v].def;
            && (forall u :: u in {base} + IndexParts(f, idxs, k) ==> Encodable(f, u))
            && Vars(GepTerm(f, v, k)) == VarsOf(f, {base} + IndexParts(f, idxs, k))
  {
    hide Enc, Pow2, VarsOf, ScaledIndex;
    Typing(f, v);
    var Gep(base, idxs) := f.values[v].def;
    if k == 0 {
      assert {base} + IndexParts(f, idxs, 0) == {base};
      VarsOfMore(f, {}, base);
    } else {
      VarsOfGepTerm(f, v, k - 1);
      var i, us := idxs[k - 1], {base} + IndexParts(f, idxs, k - 1);
      assert f.ValidIndex(i);
      if IsConstIndex(f, i) {
        assert {base} + IndexParts(f, idxs, k) == us;
      } else {
        assert {base} + IndexParts(f, idxs, k) == us + {i.v};
        VarsOfMore(f, us, i.v);
        ScaledIndexVars(f, Enc(f, i.v), i);
      }
    }
  }

  /** Every other formula has exactly the variables of its parts. */
  lemma VarsOfParts(f: Func, v: nat)
    requires Encodable(f, v) && !IsLeaf(f, v)
    ensures Vars(Enc(f, v)) == VarsOf(f, Parts(f, v))
  {
    Typing(f, v);
    match f.values[v].def {
      case Binary(_, _, _) => VarsOfShift(f, v);
      case Gep(_, _) => VarsOfGep(f, v);
      case ExtractValue(agg, _) => Typing(f, agg);
      case _ =>
    }
  }

  lemma RangeTermVars(t: Term, lo: nat, hi: nat)
    requires lo != hi
    ensures Vars(RangeTerm(t, lo, hi)) <= Vars(t)
  {
    var atLeast := Cmp(Uge, t, Const(Width(t), lo));
    var below := Cmp(Ult, t, Const(Width(t), hi));
    assert Vars(atLeast) == Vars(t) && Vars(below) == Vars(t);
  }

  /** The solver accepts the expression, and it is built from these. */
  predicate BuiltFrom(t: Term, operands: set<Term>) {
    !Aborts(t) && Operands(t) == operands
  }

  lemma CastBuilds(f: Func, v: nat)
    requires Encodable(f, v) && f.values[v].width >= 1
    ensures var d := f.values[v].def; var w := f.values[v].width;
            (d.Trunc? || d.ZExt? || d.SExt? || d.PtrToInt?
             || (d.BitCast? && d.a < |f.values| && f.values[d.a].analyzable)) ==>
              d.a < |f.values| && Encodable(f, d.a) &&
              var x, p := Enc(f, d.a), f.values[d.a].width;
              && (d.Trunc? || (d.PtrToInt? && w < p) ==>
                    Enc(f, v) == Slice(x, w - 1, 0) && BuiltFrom(Slice(x, w - 1, 0), {x}))
              && (d.ZExt? || (d.PtrToInt? && w > p) ==>
                    w > p && Enc(f, v) == Uext(x, w - p) && BuiltFrom(Uext(x, w - p), {x}))
              && (d.SExt? ==> w > p && Enc(f, v) == Sext(x, w - p) && BuiltFrom(Sext(x, w - p), {x}))
              && (d.BitCast? || (d.PtrToInt? && w == p) ==> Enc(f, v) == x)
  {
    hide Pow2;
    Typing(f, v);
  }

  lemma OverflowBuilds(f: Func, v: nat)
    requires Encodable(f, v) && f.values[v].def.ExtractValue? && f.values[v].def.agg < |f.values|
    requires f.values[f.values[v].def.agg].def.WithOverflow?
    ensures var ExtractValue(agg, k) := f.values[v].def; var WithOverflow(op, a, b) := f.values[agg].def;
            f.IsOperand(v, a) && f.IsOperand(v, b) &&
            var t := if k == 0 then Bin(WrappingOp(op), Enc(f, a), Enc(f, b)) else Ovf(op, Enc(f, a), Enc(f, b));
            Enc(f, v) == t && BuiltFrom(t, {Enc(f, a), Enc(f, b)})
  {
    hide Pow2;
    Typing(f, v);
    Typing(f, f.values[v].def.agg);
  }

  class ValueGen {
    const f: Func
    const smt: SMTSolver
    var Cache: map<nat, Term>

    constructor (f: Func, smt: SMTSolver)
      ensures this.f == f && this.smt == smt && Valid() && Owned() == multiset{} && Cache == map[]
    {
      this.f, this.smt, Cache := f, smt, map[];
      new;
      CacheRefsEmpty(Cache, |f.values|);
    }

    /** The cache holds the formulas of its keys. */
    ghost predicate Encoded()
      reads this
    {
      forall k :: k in Cache ==> Encodable(f, k) && Cache[k] == Enc(f, k)
    }

    /** Moreover the solver knows all ranges that belong to them. */
    ghost predicate Valid()
      reads this, smt
    {
      Encoded() && forall k :: k in Cache ==> Ranges(f, k) <= smt.asserted
    }

    ghost function Owned(): multiset<Term>
      reads this
    {
      CacheRefs(Cache, |f.values|)
    }

    /** The encoding of a value.  The reference stays with the cache. */
    method Get(v: nat, ghost others: multiset<Term>) returns (t: Term)
      requires Valid() && Encodable(f, v) && smt.refs == others + Owned()
      modifies this`Cache, smt
      ensures Valid() && smt.refs == others + Owned()
      ensures t == Enc(f, v) && v in Cache && Cache[v] == t && t in smt.refs
      ensures smt.asserted == old(smt.asserted) + Ranges(f, v)
      ensures old(Cache.Keys) <= Cache.Keys
      ensures forall k :: k in Cache && k > v ==> k in old(Cache)
      decreases v, 3, 0
    {
      hide Ranges, Enc, CacheRefs;
      if v !in Cache {
        t := Analyze(v, others);
        CacheRefsInsert(Cache, |f.values|, v, t);
        assert Cache[v := t].Keys == Cache.Keys + {v};
        Cache := Cache[v := t];
      }
      t := Cache[v];
      CacheRefsHas(Cache, |f.values|, v);
    }

    /** Encoding the operands of v caches only values numbered below v. */
    ghost predicate Grown(v: nat, before: map<nat, Term>, after: map<nat, Term>) {
      before.Keys <= after.Keys && forall k :: k in after && k >= v ==> k in before
    }

    /** What every visitor promises: a new reference to the formula of v for the caller, and the
        assertion of exactly the ranges that belong to v. */
    ghost predicate Built(v: nat, t: Term, others: multiset<Term>, before: set<Term>)
      requires Encodable(f, v)
      reads this, smt
    {
      && Valid() && t == Enc(f, v)
      && smt.refs == others + Owned() + multiset{t}
      && smt.asserted == before + Ranges(f, v)
    }

    lemma Cached(u: nat, others: multiset<Term>)
      requires Encoded() && u in Cache && smt.refs == others + Owned()
      ensures Enc(f, u) in smt.refs
    {
      CacheRefsHas(Cache, |f.values|, u);
    }

    method Analyze(v: nat, ghost others: multiset<Term>) returns (t: Term)
      requires Valid() && Encodable(f, v) && v !in Cache && smt.refs == others + Owned()
      modifies this`Cache, smt
      ensures Built(v, t, others, old(smt.asserted)) && Grown(v, old(Cache), Cache)
      decreases v, 2, 0
    {
      Typing(f, v);
      match f.values[v].def {
        case Phi(_) => t := VisitInstruction(v, others);
        case Opaque => t := VisitInstruction(v, others);
        case ConstInt(c) => t := MkConst(v, c, others);
        case NullPtr => t := MkConst(v, 0, others);
        case Trunc(_) => t := VisitTrunc(v, others);
        case ZExt(_) => t := VisitZExt(v, others);
        case SExt(_) => t := VisitSExt(v, others);
        case PtrToInt(_) => t := VisitPtrToInt(v, others);
        case BitCast(a) =>
          // The operand can be a floating point number.
          if f.values[a].analyzable {
            t := VisitBitCast(v, others);
          } else {
            t := MkFresh(v, others);
          }
        case Binary(_, _, _) => t := VisitBinaryOperator(v, others);
        case ICmp(_, _, _) => t := VisitICmp(v, others);
        case Select(_, _, _) => t := VisitSelect(v, others);
        case ExtractValue(agg, _) =>
          if f.values[agg].def.WithOverflow? {
            t := VisitOverflow(v, others);
          } else {
            t := MkFresh(v, others);
          }
        case Gep(_, _) => t := VisitGep(v, others);
        case Undef => t := MkFresh(v, others);
        case OtherConst => t := MkFresh(v, others);
        case Argument => t := MkFresh(v, others);
        case WithOverflow(_, _, _) => assert false;
      }
    }

    /** The last call of a visitor: the expression it builds is the formula of v. */
    method Finish(v: nat, e: Term, ghost others: multiset<Term>, ghost before: set<Term>) returns (t: Term)
      requires Valid() && Encodable(f, v) && e == Enc(f, v) && !Aborts(e)
      requires smt.refs == others + Owned() && smt.asserted == before + Ranges(f, v)
      requires forall x :: x in Operands(e) ==> x in smt.refs
      modifies smt`refs
      ensures Built(v, t, others, before)
    {
      hide Enc, Aborts, Operands, CacheRefs, Ranges;
      t := smt.Build(e);
    }

    method MkFresh(v: nat, ghost others: multiset<Term>) returns (t: Term)
      requires Valid() && Encodable(f, v) && smt.refs == others + Owned()
      requires Enc(f, v) == Fresh(f, v) && Parts(f, v) == {} && !f.values[v].def.Phi? && !f.values[v].def.Opaque?
      modifies smt
      ensures Built(v, t, others, old(smt.asserted))
    {
      hide Ranges, Parts, RangesOf, RangeAsserts;
      Typing(f, v);
      t := smt.Build(Var(f.values[v].width, v));
      LeafParts(f, v);
    }

    method MkConst(v: nat, c: nat, ghost others: multiset<Term>) returns (t: Term)
      requires Valid() && Encodable(f, v) && smt.refs == others + Owned()
      requires Enc(f, v) == Const(f.values[v].width, c) && c < Pow2(f.values[v].width)
      requires Parts(f, v) == {} && !f.values[v].def.Phi? && !f.values[v].def.Opaque?
      modifies smt
      ensures Built(v, t, others, old(smt.asserted))
    {
      hide Ranges, Parts, RangesOf, RangeAsserts;
      Typing(f, v);
      t := smt.Build(Const(f.values[v].width, c));
      LeafParts(f, v);
    }

    /** PHIs, loads, calls: a fresh variable, constrained by its annotated ranges. */
    method VisitInstruction(v: nat, ghost others: multiset<Term>) returns (t: Term)
      requires Valid() && Encodable(f, v) && smt.refs == others + Owned()
      requires f.values[v].def.Phi? || f.values[v].def.Opaque?
      modifies smt
      ensures Built(v, t, others, old(smt.asserted))
    {
      assert f.ValidValue(v) && Parts(f, v) == {};
      LeafParts(f, v);
      t := smt.Build(Var(f.values[v].width, v));
      AddRangeConstraints(smt, t, f.values[v].ranges);
    }

    method VisitTrunc(v: nat, ghost others: multiset<Term>) returns (t: Term)
      requires Valid() && Encodable(f, v) && v !in Cache && smt.refs == others + Owned()
      requires f.values[v].def.Trunc?
      modifies this`Cache, smt
      ensures Built(v, t, others, old(smt.asserted)) && Grown(v, old(Cache), Cache)
      decreases v, 1, 0
    {
      hide Enc, Aborts, Operands, Width, Pow2, CacheRefs, Ranges, Parts, RangesOf, RangeAsserts;
      Typing(f, v);
      CastParts(f, v);
      CastBuilds(f, v);
      var x := GetOperand(v, f.values[v].def.a, others);
      t := Finish(v, Slice(x, f.values[v].width - 1, 0), others, old(smt.asserted));
    }

    method VisitZExt(v: nat, ghost others: multiset<Term>) returns (t: Term)
      requires Valid() && Encodable(f, v) && v !in Cache && smt.refs == others + Owned()
      requires f.values[v].def.ZExt?
      modifies this`Cache, smt
      ensures Built(v, t, others, old(smt.asserted)) && Grown(v, old(Cache), Cache)
      decreases v, 1, 0
    {
      hide Enc, Aborts, Operands, Width, Pow2, CacheRefs, Ranges, Parts, RangesOf, RangeAsserts;
      Typing(f, v);
      CastParts(f, v);
      CastBuilds(f, v);
      var x := GetOperand(v, f.values[v].def.a, others);
      t := Finish(v, Uext(x, f.values[v].width - f.values[f.values[v].def.a].width), others, old(smt.asserted));
    }

    method VisitSExt(v: nat, ghost others: multiset<Term>) returns (t: Term)
      requires Valid() && Encodable(f, v) && v !in Cache && smt.refs == others + Owned()
      requires f.values[v].def.SExt?
      modifies this`Cache, smt
      ensures Built(v, t, others, old(smt.asserted)) && Grown(v, old(Cache), Cache)
      decreases v, 1, 0
    {
      hide Enc, Aborts, Operands, Width, Pow2, CacheRefs, Ranges, Parts, RangesOf, RangeAsserts;
      Typing(f, v);
      CastParts(f, v);
      CastBuilds(f, v);
      var x := GetOperand(v, f.values[v].def.a, others);
      t := Finish(v, Sext(x, f.values[v].width - f.values[f.values[v].def.a].width), others, old(smt.asserted));
    }

    method VisitBitCast(v: nat, ghost others: multiset<Term>) returns (t: Term)
      requires Valid() && Encodable(f, v) && v !in Cache && smt.refs == others + Owned()
      requires f.values[v].def.BitCast? && f.values[v].def.a < |f.values| && f.values[f.values[v].def.a].analyzable
      modifies this`Cache, smt
      ensures Built(v, t, others, old(smt.asserted)) && Grown(v, old(Cache), Cache)
      decreases v, 1, 0
    {
      hide Enc, Aborts, Operands, Width, Pow2, CacheRefs, Ranges, Parts, RangesOf, RangeAsserts;
      Typing(f, v);
      CastParts(f, v);
      CastBuilds(f, v);
      var x := GetOperand(v, f.values[v].def.a, others);
      smt.Incref(x);
      t := x;
    }

    method VisitPtrToInt(v: nat, ghost others: multiset<Term>) returns (t: Term)
      requires Valid() && Encodable(f, v) && v !in Cache && smt.refs == others + Owned()
      requires f.values[v].def.PtrToInt?
      modifies this`Cache, smt
      ensures Built(v, t, others, old(smt.asserted)) && Grown(v, old(Cache), Cache)
      decreases v, 1, 0
    {
      hide Enc, Aborts, Operands, Width, Pow2, CacheRefs, Ranges, Parts, RangesOf, RangeAsserts;
      Typing(f, v);
      CastParts(f, v);
      CastBuilds(f, v);
      var x := GetOperand(v, f.values[v].def.a, others);
      var intSize, ptrSize := f.values[v].width, f.values[f.values[v].def.a].width;
      if intSize > ptrSize {
        t := Finish(v, Uext(x, intSize - ptrSize), others, old(smt.asserted));
      } else if intSize < ptrSize {
        t := Finish(v, Slice(x, intSize - 1, 0), others, old(smt.asserted));
      } else {
        smt.Incref(x);
        t := x;
      }
    }

    /** An operand has a smaller number than its user, so encoding it does not encode the user. */
    method GetOperand(v: nat, u: nat, ghost others: multiset<Term>) returns (t: Term)
      requires Valid() && f.IsOperand(v, u) && smt.refs == others + Owned()
      modifies this`Cache, smt
      ensures Valid() && smt.refs == others + Owned()
      ensures t == Enc(f, u) && u in Cache && t in smt.refs
      ensures Grown(v, old(Cache), Cache) && smt.asserted == old(smt.asserted) + Ranges(f, u)
      decreases v, 0, 0
    {
      t := Get(u, others);
    }

    method GetOperands(v: nat, a: nat, b: nat, ghost others: multiset<Term>) returns (x: Term, y: Term)
      requires Valid() && f.IsOperand(v, a) && f.IsOperand(v, b) && smt.refs == others + Owned()
      modifies this`Cache, smt
      ensures Valid() && smt.refs == others + Owned()
      ensures x == Enc(f, a) && y == Enc(f, b) && x in smt.refs && y in smt.refs
      ensures Grown(v, old(Cache), Cache) && a in Cache && b in Cache
      ensures smt.asserted == old(smt.asserted) + RangesOf(f, {a, b})
      decreases v, 0, 1
    {
      hide Ranges, RangesOf, CacheRefs;
      x := GetOperand(v, a, others);
      y := GetOperand(v, b, others);
      Cached(a, others);
      RangesOfMore(f, {a}, b);
      RangesOfMore(f, {}, a);
      assert {a} + {b} == {a, b};
    }

    method VisitBinaryOperator(v: nat, ghost others: multiset<Term>) returns (t: Term)
      requires Valid() && Encodable(f, v) && v !in Cache && smt.refs == others + Owned()
      requires f.values[v].def.Binary?
      modifies this`Cache, smt
      ensures Built(v, t, others, old(smt.asserted)) && Grown(v, old(Cache), Cache)
      decreases v, 1, 0
    {
      hide Ranges, Parts, RangesOf, RangeAsserts, CacheRefs, Pow2;
      Typing(f, v);
      OperationParts(f, v);
      var Binary(op, a, b) := f.values[v].def;
      var l, r := GetOperands(v, a, b, others);
      match op {
        case Plain(o) => t := Finish(v, Bin(Arith(o), l, r), others, old(smt.asserted));
        case Shl => t := smt.Shift(Sll, l, r);
        case LShr => t := smt.Shift(Srl, l, r);
        case AShr => t := smt.Shift(Sra, l, r);
      }
    }

    method VisitICmp(v: nat, ghost others: multiset<Term>) returns (t: Term)
      requires Valid() && Encodable(f, v) && v !in Cache && smt.refs == others + Owned()
      requires f.values[v].def.ICmp?
      modifies this`Cache, smt
      ensures Built(v, t, others, old(smt.asserted)) && Grown(v, old(Cache), Cache)
      decreases v, 1, 0
    {
      hide Ranges, Parts, RangesOf, RangeAsserts, CacheRefs, Pow2;
      Typing(f, v);
      OperationParts(f, v);
      var ICmp(pred, a, b) := f.values[v].def;
      var l, r := GetOperands(v, a, b, others);
      t := Finish(v, Cmp(pred, l, r), others, old(smt.asserted));
    }

    method VisitSelect(v: nat, ghost others: multiset<Term>) returns (t: Term)
      requires Valid() && Encodable(f, v) && v !in Cache && smt.refs == others + Owned()
      requires f.values[v].def.Select?
      modifies this`Cache, smt
      ensures Built(v, t, others, old(smt.asserted)) && Grown(v, old(Cache), Cache)
      decreases v, 1, 0
    {
      hide Ranges, Parts, RangesOf, RangeAsserts, CacheRefs, Pow2;
      Typing(f, v);
      OperationParts(f, v);
      var Select(c, a, b) := f.values[v].def;
      var x := GetOperand(v, c, others);
      var l, r := GetOperands(v, a, b, others);
      Cached(c, others);
      t := Finish(v, Ite(x, l, r), others, old(smt.asserted));
    }

    /** Extracting from an overflow intrinsic reads the operands of the intrinsic itself. */
    method VisitOverflow(v: nat, ghost others: multiset<Term>) returns (t: Term)
      requires Valid() && Encodable(f, v) && v !in Cache && smt.refs == others + Owned()
      requires f.values[v].def.ExtractValue? && f.values[v].def.agg < |f.values|
      requires f.values[f.values[v].def.agg].def.WithOverflow?
      modifies this`Cache, smt
      ensures Built(v, t, others, old(smt.asserted)) && Grown(v, old(Cache), Cache)
      decreases v, 1, 0
    {
      hide Enc, Aborts, Operands, Width, Pow2, CacheRefs, Ranges, Parts, RangesOf, RangeAsserts;
      Typing(f, v);
      OverflowParts(f, v);
      OverflowBuilds(f, v);
      var ExtractValue(agg, k) := f.values[v].def;
      Typing(f, agg);
      var WithOverflow(op, a, b) := f.values[agg].def;
      var l, r := GetOperands(v, a, b, others);
      if k == 0 {
        match op {
          case SAdd => t := Finish(v, Bin(Arith(Add), l, r), others, old(smt.asserted));
          case UAdd => t := Finish(v, Bin(Arith(Add), l, r), others, old(smt.asserted));
          case SSub => t := Finish(v, Bin(Arith(Sub), l, r), others, old(smt.asserted));
          case USub => t := Finish(v, Bin(Arith(Sub), l, r), others, old(smt.asserted));
          case SMul => t := Finish(v, Bin(Arith(Mul), l, r), others, old(smt.asserted));
          case UMul => t := Finish(v, Bin(Arith(Mul), l, r), others, old(smt.asserted));
        }
      } else {
        t := Finish(v, Ovf(op, l, r), others, old(smt.asserted));
      }
    }

    method VisitGep(v: nat, ghost others: multiset<Term>) returns (t: Term)
      requires Valid() && Encodable(f, v) && v !in Cache && smt.refs == others + Owned()
      requires f.values[v].def.Gep?
      modifies this`Cache, smt
      ensures Built(v, t, others, old(smt.asserted)) && Grown(v, old(Cache), Cache)
      decreases v, 1, 0
    {
      hide Ranges, Parts, RangesOf, RangeAsserts, CacheRefs, Pow2, GepRanges, GepTerm, GepConst, f.ValidIndex;
      Typing(f, v);
      GepParts(f, v);
      var constOffset;
      t, constOffset := AccumulateIndices(v, others);
      if constOffset != 0 {
        var c := smt.Build(Const(f.ptrSize, constOffset));
        t := smt.Combine(Bin(Arith(Add), t, c), t, c, others + Owned());
      }
    }

    /** Start from the base; constant indices go to one sum, variable ones to the formula. */
    method AccumulateIndices(v: nat, ghost others: multiset<Term>) returns (offset: Term, constOffset: nat)
      requires Valid() && Encodable(f, v) && smt.refs == others + Owned()
      requires f.values[v].def.Gep? && f.WellTypedDef(v)
      modifies this`Cache, smt
      ensures Valid() && Grown(v, old(Cache), Cache)
      ensures var idxs := f.values[v].def.indices;
              offset == GepTerm(f, v, |idxs|) && constOffset == GepConst(f, idxs, |idxs|)
      ensures smt.refs == others + Owned() + multiset{offset}
      ensures smt.asserted == old(smt.asserted) + Ranges(f, v)
      decreases v, 0, 3
    {
      hide Enc, CacheRefs, Ranges, Parts, RangesOf, RangeAsserts, IndexParts, GepRanges, GepTerm, GepConst;
      hide Pow2, f.ValidIndex, Width, Aborts, Operands;
      GepParts(f, v);
      GepStart(f, v);
      ghost var before := smt.asserted;
      var Gep(base, idxs) := f.values[v].def;
      offset := GetOperand(v, base, others);
      smt.Incref(offset);
      constOffset := 0;
      var k := 0;
      while k < |idxs|
        invariant 0 <= k <= |idxs|
        invariant Valid() && Grown(v, old(Cache), Cache)
        invariant offset == GepTerm(f, v, k) && constOffset == GepConst(f, idxs, k)
        invariant smt.refs == others + Owned() + multiset{offset}
        invariant smt.asserted == before + GepRanges(f, v, k)
      {
        offset, constOffset := AccumulateIndex(v, k, offset, constOffset, others, before);
        k := k + 1;
      }
    }

    method AccumulateIndex(v: nat, k: nat, offset: Term, constOffset: nat,
                           ghost others: multiset<Term>, ghost before: set<Term>)
      returns (offset': Term, constOffset': nat)
      requires Valid() && Encodable(f, v) && f.values[v].def.Gep? && f.WellTypedDef(v)
      requires k < |f.values[v].def.indices|
      requires offset == GepTerm(f, v, k) && constOffset == GepConst(f, f.values[v].def.indices, k)
      requires smt.refs == others + Owned() + multiset{offset} && smt.asserted == before + GepRanges(f, v, k)
      modifies this`Cache, smt
      ensures Valid() && Grown(v, old(Cache), Cache)
      ensures offset' == GepTerm(f, v, k + 1) && constOffset' == GepConst(f, f.values[v].def.indices, k + 1)
      ensures smt.refs == others + Owned() + multiset{offset'}
      ensures smt.asserted == before + GepRanges(f, v, k + 1)
      decreases v, 0, 2
    {
      hide Ranges, Parts, RangesOf, RangeAsserts, CacheRefs;
      var i := f.values[v].def.indices[k];
      assert f.ValidIndex(i) && i.v < v;
      offset', constOffset' := offset, constOffset;
      if f.values[i.v].def.ConstInt? {
        constOffset' := AddConstIndex(f, constOffset, i);
      } else {
        offset' := AddScaledIndex(v, i, offset, others);
      }
    }

    /** One variable index: resize it, scale it, add it, and release the pieces. */
    method AddScaledIndex(v: nat, i: Index, offset: Term, ghost others: multiset<Term>) returns (t: Term)
      requires Valid() && f.ValidIndex(i) && f.IsOperand(v, i.v) && i.Element? && Width(offset) == f.ptrSize
      requires smt.refs == others + Owned() + multiset{offset}
      modifies this`Cache, smt
      ensures Valid() && Grown(v, old(Cache), Cache)
      ensures t == Bin(Arith(Add), offset, ScaledIndex(f, Enc(f, i.v), i))
      ensures smt.refs == others + Owned() + multiset{t} && smt.asserted == old(smt.asserted) + Ranges(f, i.v)
      decreases v, 0, 1
    {
      hide Enc, CacheRefs, Ranges;
      assert smt.refs == others + multiset{offset} + Owned();
      var index := GetOperand(v, i.v, others + multiset{offset});
      var local := ScaleIndex(index, i);
      t := smt.Combine(Bin(Arith(Add), offset, local), offset, local, others + Owned());
    }

    method ScaleIndex(index: Term, i: Index) returns (t: Term)
      requires f.ptrSize >= 1 && i.Element? && index in smt.refs
      modifies smt`refs
      ensures t == ScaledIndex(f, index, i) && smt.refs == old(smt.refs) + multiset{t}
    {
      var p := f.ptrSize;
      var sIdx := index;
      if Width(index) < p {
        sIdx := smt.Build(Sext(index, p - Width(index)));
      } else if Width(index) > p {
        sIdx := smt.Build(Slice(index, p - 1, 0));
      } else {
        smt.Incref(sIdx);
      }
      var elemSize := smt.Build(Const(p, Wrap(p, i.size)));
      t := smt.Combine(Bin(Arith(Mul), sIdx, elemSize), sIdx, elemSize, old(smt.refs));
    }

    /** The destructor releases the reference of every cache entry. */
    method Delete(ghost others: multiset<Term>)
      requires smt.refs == others + Owned()
      modifies this`Cache, smt`refs
      ensures smt.refs == others
    {
      var k := 0;
      while k < |f.values|
        invariant 0 <= k <= |f.values|
        invariant forall j :: 0 <= j < k ==> j !in Cache
        invariant smt.refs == others + Owned()
      {
        if k in Cache {
          Release(k, others);
        }
        k := k + 1;
      }
      CacheRefsEmpty(Cache, |f.values|);
    }

    method Release(k: nat, ghost others: multiset<Term>)
      requires smt.refs == others + Owned() && k in Cache && k < |f.values|
      modifies this`Cache, smt`refs
      ensures smt.refs == others + Owned() && Cache == old(Cache) - {k}
    {
      hide CacheRefs;
      CacheRefsHas(Cache, |f.values|, k);
      CacheRefsRemove(Cache, |f.values|, k);
      smt.Decref(Cache[k]);
      Cache := Cache - {k};
    }
  }
}
