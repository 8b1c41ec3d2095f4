/** OverflowSimplify: overflow intrinsics with a constant operand become an operation and a
    comparison against a threshold; the others get their operands in a stable order. */
module OverflowSimplify {
  import opened BitVec
  import opened FiniteSets
  import opened Rewriting
  import opened SSA
  import opened Terms

  /** An operand, with the name LLVM prints for it. */
  datatype Operand = Constant(val: nat) | Named(id: nat, name: string, isConstantExpr: bool)

  datatype Comparison =
    | False
    | Compare(op: CmpOp, l: Operand, r: Operand)
    | Either(p: Comparison, q: Comparison)

  /** An instruction the pass looks at: an overflow intrinsic of width n, or what replaced it. */
  datatype Inst =
    | Intrinsic(op: OvfOp, n: nat, l: Operand, r: Operand)
    | Pair(n: nat, res: ArithOp, resL: Operand, resR: Operand, overflow: Comparison)
    | Other

  function Value(o: Operand, e: Env): nat {
    match o case Constant(v) => v case Named(id, _, _) => Lookup(e, id)
  }

  predicate ComparisonHolds(c: Comparison, n: nat, e: Env) {
    match c
    case False => false
    case Compare(op, l, r) => CmpHolds(op, n, Value(l, e), Value(r, e))
    case Either(p, q) => ComparisonHolds(p, n, e) || ComparisonHolds(q, n, e)
  }

  // ----- canonicalize

  predicate NameLe(a: string, b: string) {
    a == "" || (b != "" && (a[0] < b[0] || (a[0] == b[0] && NameLe(a[1..], b[1..]))))
  }

  function PrintedName(o: Operand): string {
    match o case Constant(_) => "" case Named(_, s, _) => s
  }

  predicate Swaps(l: Operand, r: Operand) {
    !l.Constant? && !r.Constant? && !NameLe(PrintedName(l), PrintedName(r))
  }

  function Canonicalize(i: Inst): Inst
    requires i.Intrinsic?
  {
    if Swaps(i.l, i.r) then i.(l := i.r, r := i.l) else i
  }

  lemma {:induction false} NamesOrdered(a: string, b: string)
    ensures NameLe(a, b) || NameLe(b, a)
    ensures NameLe(a, b) && NameLe(b, a) ==> a == b
  {
    if a != "" && b != "" {
      NamesOrdered(a[1..], b[1..]);
      assert a == [a[0]] + a[1..] && b == [b[0]] + b[1..];
    }
  }

  /** Canonicalizing twice is canonicalizing once; and two calls that differ in the order of
      operands with different names become the same call. */
  lemma CanonicalOrder(i: Inst)
    requires i.Intrinsic?
    ensures Canonicalize(Canonicalize(i)) == Canonicalize(i)
    ensures !i.l.Constant? && !i.r.Constant? && PrintedName(i.l) != PrintedName(i.r) ==>
              Canonicalize(i.(l := i.r, r := i.l)) == Canonicalize(i)
  {
    NamesOrdered(PrintedName(i.l), PrintedName(i.r));
  }

  // ----- The rewrites

  /** The constant operand of a commutative call, and the other one. */
  function ConstantOperand(i: Inst): (Operand, Operand)
    requires i.Intrinsic? && (i.l.Constant? || i.r.Constant?)
    ensures var (x, c) := ConstantOperand(i); c.Constant? && ((c == i.r && x == i.l) || (c == i.l && x == i.r))
  {
    if i.r.Constant? then (i.l, i.r) else (i.r, i.l)
  }

  function Threshold(op: CmpOp, x: Operand, n: nat, bound: int): Comparison {
    Compare(op, x, Constant(Wrap(n, bound)))
  }

  predicate IsNegative(n: nat, c: nat) {
    Signed(n, c) < 0
  }

  function Simplify(i: Inst): Inst
    requires i.Intrinsic? && i.n >= 1
  {
    if i.op == SSub then SimplifySSub(i)
    else if i.op == USub then
      var lIsConstant := i.l.Constant? || i.l.isConstantExpr;
      Pair(i.n, Sub, i.l, i.r, if lIsConstant then Compare(Ugt, i.r, i.l) else Compare(Ult, i.l, i.r))
    else if i.l.Constant? || i.r.Constant? then SimplifyCommutative(i)
    else Canonicalize(i)
  }

  /** simplifySAdd, simplifyUAdd, simplifySMul and simplifyUMul, given a constant operand. */
  function SimplifyCommutative(i: Inst): Inst
    requires i.Intrinsic? && i.n >= 1 && (i.l.Constant? || i.r.Constant?)
    requires i.op != SSub && i.op != USub
  {
    var (x, c) := ConstantOperand(i);
    match i.op
    case SAdd => Pair(i.n, Add, x, c, SAddOverflow(i.n, x, c.val))
    case UAdd => Pair(i.n, Add, x, c, Threshold(Ugt, x, i.n, UMax(i.n) - c.val))
    case SMul => Pair(i.n, Mul, x, c, SMulOverflow(i.n, x, c.val))
    case UMul => Pair(i.n, Mul, x, c, UMulOverflow(i.n, x, c.val))
  }

  function SAddOverflow(n: nat, x: Operand, c: nat): Comparison
    requires n >= 1
  {
    if IsNegative(n, c) then Threshold(Slt, x, n, SMin(n) - Signed(n, c))
    else Threshold(Sgt, x, n, SMax(n) - Signed(n, c))
  }

  function SimplifySSub(i: Inst): Inst
    requires i.Intrinsic? && i.n >= 1
  {
    if i.r.Constant? then
      var c := i.r.val;
      Pair(i.n, Sub, i.l, i.r,
        if IsNegative(i.n, c) then Threshold(Sgt, i.l, i.n, SMax(i.n) + Signed(i.n, c))
        else Threshold(Slt, i.l, i.n, SMin(i.n) + Signed(i.n, c)))
    else if i.l.Constant? then
      // Compares the constant l itself, where the right operand was meant.
      var c := i.l.val;
      Pair(i.n, Sub, i.l, i.r,
        if IsNegative(i.n, c) then Threshold(Sgt, i.l, i.n, Signed(i.n, c) - SMin(i.n))
        else Threshold(Slt, i.l, i.n, Signed(i.n, c) - SMax(i.n)))
    else i
  }

  function SMulOverflow(n: nat, x: Operand, c: nat): Comparison
    requires n >= 1
  {
    if Signed(n, c) == 0 then False else
      var max, min := TruncDiv(SMax(n), Signed(n, c)), TruncDiv(SMin(n), Signed(n, c));
      if IsNegative(n, c) then Either(Threshold(Slt, x, n, max), Threshold(Sgt, x, n, min))
      else Either(Threshold(Sgt, x, n, max), Threshold(Slt, x, n, min))
  }

  function UMulOverflow(n: nat, x: Operand, c: nat): Comparison {
    if c == 0 then False else Threshold(Ugt, x, n, UMax(n) / c)
  }

  // ----- Meaning

  /** The two shapes whose overflow bit is wrong: multiplying anything but the least value by -1,
      and a difference with a constant on the left that does overflow. */
  predicate Deviates(i: Inst, e: Env)
    requires i.Intrinsic? && i.n >= 1
  {
    var a, b := Signed(i.n, Value(i.l, e)), Signed(i.n, Value(i.r, e));
    match i.op
    case SMul =>
      (i.l.Constant? || i.r.Constant?) &&
      var (x, c) := ConstantOperand(i);
      Signed(i.n, c.val) == -1 && Signed(i.n, Value(x, e)) != SMin(i.n)
    case SSub =>
      i.l.Constant? && !i.r.Constant? && if a < 0 then b > a - SMin(i.n) else b < a - SMax(i.n)
    case _ => false
  }

  predicate OperandsFit(i: Inst, e: Env)
    requires i.Intrinsic?
  {
    i.n >= 1 && Value(i.l, e) < Pow2(i.n) && Value(i.r, e) < Pow2(i.n)
  }

  lemma SignedThreshold(x: Operand, n: nat, bound: int, e: Env)
    requires n >= 1 && SMin(n) <= bound <= SMax(n)
    ensures ComparisonHolds(Threshold(Slt, x, n, bound), n, e) <==> Signed(n, Value(x, e)) < bound
    ensures ComparisonHolds(Threshold(Sgt, x, n, bound), n, e) <==> Signed(n, Value(x, e)) > bound
  {
    SignedWrap(n, bound);
  }

  lemma SignedOverflow(op: OvfOp, n: nat, a: nat, b: nat)
    requires n >= 1 && op in {SAdd, SSub, SMul}
    ensures Overflows(op, n, a, b) <==> !(SMin(n) <= Exact(op, n, a, b) <= SMax(n))
  {
    assert Pow2(n) == 2 * Pow2(n - 1);
  }

  /** The result part is the operation itself, and for a commutative one the order is immaterial. */
  lemma ResultMeaning(i: Inst, e: Env)
    requires i.Intrinsic? && OperandsFit(i, e) && Simplify(i).Pair?
    ensures var s := Simplify(i);
            s.n == i.n && ArithResult(s.res, s.n, Value(s.resL, e), Value(s.resR, e))
                          == Wrap(i.n, Exact(i.op, i.n, Value(i.l, e), Value(i.r, e)))
  {
    hide Wrap, Exact;
    ExactWraps(i.op, i.n, Value(i.l, e), Value(i.r, e));
    assert Value(i.l, e) * Value(i.r, e) == Value(i.r, e) * Value(i.l, e);
  }

  lemma SAddMeaning(n: nat, x: Operand, c: nat, e: Env)
    requires n >= 1 && c < Pow2(n) && Value(x, e) < Pow2(n)
    ensures ComparisonHolds(SAddOverflow(n, x, c), n, e) <==> Overflows(SAdd, n, Value(x, e), c)
  {
    hide Wrap, Pow2;
    SignedOverflow(SAdd, n, Value(x, e), c);
    SignedRange(n, Value(x, e));
    SignedRange(n, c);
    if IsNegative(n, c) {
      SignedThreshold(x, n, SMin(n) - Signed(n, c), e);
    } else {
      SignedThreshold(x, n, SMax(n) - Signed(n, c), e);
    }
  }

  lemma SSubMeaning(i: Inst, e: Env)
    requires i.Intrinsic? && i.op == SSub && OperandsFit(i, e) && Simplify(i).Pair?
    ensures ComparisonHolds(Simplify(i).overflow, i.n, e) == Overflows(SSub, i.n, Value(i.l, e), Value(i.r, e))
            <==> !Deviates(i, e)
  {
    hide Wrap, Pow2;
    var n, a, b := i.n, Value(i.l, e), Value(i.r, e);
    SignedOverflow(SSub, n, a, b);
    SignedRange(n, a);
    SignedRange(n, b);
    if i.r.Constant? {
      SignedThreshold(i.l, n, if IsNegative(n, b) then SMax(n) + Signed(n, b) else SMin(n) + Signed(n, b), e);
    } else {
      SignedThreshold(i.l, n, if IsNegative(n, a) then Signed(n, a) - SMin(n) else Signed(n, a) - SMax(n), e);
    }
  }

  /** Truncating division by a negative number, in terms of its magnitude. */
  lemma DivideByNegative(a: int, c: int)
    requires a >= 0 && c >= 1
    ensures TruncDiv(a, -c) == -(a / c) && TruncDiv(-a, c) == -(a / c) && TruncDiv(-a, -c) == a / c
  {
    var q, r := a / c, a % c;
    assert a == q * c + r;
    NegativeDivisor(a, c);
    if a == 0 {
      DivModUnique(0, c, 0, 0);
    }
  }

  lemma SMulMeaning(n: nat, x: Operand, c: nat, e: Env)
    requires n >= 1 && c < Pow2(n) && Value(x, e) < Pow2(n)
    ensures ComparisonHolds(SMulOverflow(n, x, c), n, e) == Overflows(SMul, n, Value(x, e), c)
            <==> !(Signed(n, c) == -1 && Signed(n, Value(x, e)) != SMin(n))
  {
    hide Wrap, Pow2;
    var v, k := Signed(n, Value(x, e)), Signed(n, c);
    SignedOverflow(SMul, n, Value(x, e), c);
    SignedRange(n, Value(x, e));
    SignedRange(n, c);
    if k > 0 {
      PositiveFactor(n, x, c, e);
    } else if k < 0 {
      NegativeFactor(n, x, c, e);
    }
  }

  lemma PositiveFactor(n: nat, x: Operand, c: nat, e: Env)
    requires n >= 1 && Signed(n, c) > 0
    ensures var p := Signed(n, Value(x, e)) * Signed(n, c);
            ComparisonHolds(SMulOverflow(n, x, c), n, e) <==> p > SMax(n) || p < SMin(n)
  {
    hide Wrap, Pow2, TruncDiv, Signed;
    var v, k, max, least := Signed(n, Value(x, e)), Signed(n, c), SMax(n), 0 - SMin(n);
    DivideByNegative(max, k);
    DivideByNegative(least, k);
    SignedQuotients(v, k, max, least);
    PositiveQuotient(max, k);
    SignedThreshold(x, n, max / k, e);
    SignedThreshold(x, n, -(least / k), e);
  }

  lemma PositiveQuotient(a: int, k: int)
    requires a >= 0 && k >= 1
    ensures TruncDiv(a, k) == a / k
  {
  }

  lemma SignedQuotients(v: int, k: int, max: int, least: int)
    requires k >= 1 && max >= 0 && least >= 0
    ensures v > max / k <==> v * k > max
    ensures v < -(least / k) <==> v * k < -least
    ensures 0 <= max / k <= max && 0 <= least / k <= least
  {
    QuotientBound(v, k, max);
    QuotientBound(-v, k, least);
    assert -v * k == -(v * k);
    DivLe(max, k);
    DivLe(least, k);
  }

  lemma NegativeQuotients(v: int, k: int, max: int, least: int)
    requires k >= 1 && max >= 0 && least >= 0
    ensures v < -(max / k) <==> v * -k > max
    ensures v > least / k <==> v * -k < -least
  {
    QuotientBound(-v, k, max);
    QuotientBound(v, k, least);
    assert -v * k == v * -k && v * k == -(v * -k);
  }

  lemma NegativeFactor(n: nat, x: Operand, c: nat, e: Env)
    requires n >= 1 && c < Pow2(n) && Signed(n, c) < 0 && Value(x, e) < Pow2(n)
    ensures var v := Signed(n, Value(x, e)); var p := v * Signed(n, c);
            ComparisonHolds(SMulOverflow(n, x, c), n, e) == (p > SMax(n) || p < SMin(n))
            <==> !(Signed(n, c) == -1 && v != SMin(n))
  {
    hide Wrap, Pow2, TruncDiv, Signed;
    var v, k, max, least := Signed(n, Value(x, e)), -Signed(n, c), SMax(n), 0 - SMin(n);
    DivideByNegative(max, k);
    DivideByNegative(least, k);
    SignedRange(n, Value(x, e));
    if k == 1 {
      DivideByOne(max);
      DivideByOne(least);
      SignedThreshold(x, n, -max, e);
      MinusOne(n, x, e);
    } else {
      NegativeQuotients(v, k, max, least);
      HalfOrLess(least, k);
      DivLe(max, k);
      SignedThreshold(x, n, -(max / k), e);
      SignedThreshold(x, n, least / k, e);
    }
  }

  lemma DivideByOne(a: int)
    ensures a / 1 == a
  {
  }

  lemma HalfOrLess(a: int, k: int)
    requires a >= 1 && k >= 2
    ensures 0 <= a / k < a
  {
    DivLe(a, k);
    HalfBound(a, k);
  }

  /** SMIN / -1 wraps around to SMIN, so the comparison with it catches everything but SMIN. */
  lemma MinusOne(n: nat, x: Operand, e: Env)
    requires n >= 1
    ensures ComparisonHolds(Threshold(Sgt, x, n, Pow2(n - 1)), n, e) <==> Signed(n, Value(x, e)) > SMin(n)
  {
    hide Wrap;
    assert Pow2(n) == 2 * Pow2(n - 1);
    WrapShift(n, SMin(n), 1);
    SignedThreshold(x, n, SMin(n), e);
  }

  lemma UMulMeaning(n: nat, x: Operand, c: nat, e: Env)
    ensures ComparisonHolds(UMulOverflow(n, x, c), n, e) <==> Overflows(UMul, n, Value(x, e), c)
  {
    hide Wrap, Pow2;
    if c != 0 {
      QuotientBound(Value(x, e), c, UMax(n));
      DivLe(UMax(n), c);
      WrapId(n, UMax(n) / c);
    }
  }

  /** A replaced call still gives the wrapped result, and its overflow bit if and only if the shape
      is not one of the two above. */
  lemma SimplifyMeaning(i: Inst, e: Env)
    requires i.Intrinsic? && OperandsFit(i, e) && Simplify(i).Pair?
    ensures var s := Simplify(i); var a, b := Value(i.l, e), Value(i.r, e);
            && s.n == i.n
            && ArithResult(s.res, s.n, Value(s.resL, e), Value(s.resR, e)) == Wrap(i.n, Exact(i.op, i.n, a, b))
            && (ComparisonHolds(s.overflow, i.n, e) == Overflows(i.op, i.n, a, b) <==> !Deviates(i, e))
  {
    hide Wrap, Pow2;
    ResultMeaning(i, e);
    OverflowMeaning(i, e);
  }

  lemma OverflowMeaning(i: Inst, e: Env)
    requires i.Intrinsic? && OperandsFit(i, e) && Simplify(i).Pair?
    ensures ComparisonHolds(Simplify(i).overflow, i.n, e) == Overflows(i.op, i.n, Value(i.l, e), Value(i.r, e))
            <==> !Deviates(i, e)
  {
    hide Wrap, Pow2, TruncDiv;
    if i.op == SSub {
      SSubMeaning(i, e);
    } else if i.op != USub {
      var (x, c) := ConstantOperand(i);
      OverflowCommutes(i.op, i.n, Value(i.l, e), Value(i.r, e));
      match i.op {
        case SAdd => SAddMeaning(i.n, x, c.val, e);
        case UAdd => WrapId(i.n, UMax(i.n) - c.val);
        case SMul => SMulMeaning(i.n, x, c.val, e);
        case UMul => UMulMeaning(i.n, x, c.val, e);
      }
    }
  }

  lemma OverflowCommutes(op: OvfOp, n: nat, a: nat, b: nat)
    requires op !in {SSub, USub}
    ensures Overflows(op, n, a, b) == Overflows(op, n, b, a)
  {
    assert a * b == b * a && Signed(n, a) * Signed(n, b) == Signed(n, b) * Signed(n, a);
  }

  /** Both deviations occur at 8 bits: 5 * -1 does not overflow but is said to, and 100 - (-100)
      overflows but is said not to. */
  lemma DeviationExamples()
    ensures var i := Intrinsic(SMul, 8, Named(0, "x", false), Constant(255));
            Deviates(i, [5]) && Simplify(i).Pair? && OperandsFit(i, [5])
    ensures var i := Intrinsic(SSub, 8, Constant(100), Named(0, "x", false));
            Deviates(i, [156]) && Simplify(i).Pair? && OperandsFit(i, [156])
  {
    assert Pow2(7) == 128 && Pow2(8) == 256;
  }

  // ----- The pass

  function SimplifyInst(i: Inst): Inst {
    if i.Intrinsic? && i.n >= 1 then Simplify(i) else i
  }

  /** Which calls are replaced: unsigned subtractions, and those with a constant operand. All others stay
      the same call, those of a commutative operation with their operands in the order of their names. */
  lemma ReplacedExactly(i: Inst)
    requires i.Intrinsic? && i.n >= 1
    ensures Simplify(i).Pair? <==> i.op == USub || i.l.Constant? || i.r.Constant?
    ensures !Simplify(i).Pair? ==> Simplify(i) == i || (i.op != SSub && Simplify(i) == i.(l := i.r, r := i.l))
    ensures !Simplify(i).Pair? && i.op != SSub ==> NameLe(PrintedName(Simplify(i).l), PrintedName(Simplify(i).r))
  {
    if i.Intrinsic? && !i.l.Constant? && !i.r.Constant? { NamesOrdered(PrintedName(i.l), PrintedName(i.r)); }
  }

  /** runOnFunction: every overflow intrinsic is rewritten in place.  The result says whether
      anything was. */
  method RunOnFunction(insts: array<Inst>) returns (changed: bool)
    modifies insts
    ensures forall k :: 0 <= k < insts.Length ==> insts[k] == SimplifyInst(old(insts[k]))
    ensures changed <==> exists k :: 0 <= k < insts.Length && insts[k] != old(insts[k])
  {
    changed := false;
    var k := 0;
    while k < insts.Length
      invariant 0 <= k <= insts.Length
      invariant forall j :: 0 <= j < k ==> insts[j] == SimplifyInst(old(insts[j]))
      invariant forall j :: k <= j < insts.Length ==> insts[j] == old(insts[j])
      invariant changed <==> exists j :: 0 <= j < k && insts[j] != old(insts[j])
    {
      if insts[k].Intrinsic? && insts[k].n >= 1 {
        var c := SimplifyAt(insts, k);
        changed := changed || c;
      }
      k := k + 1;
    }
  }

  /** One of the simplify methods: replace the call, or only swap its operands. */
  method SimplifyAt(insts: array<Inst>, k: nat) returns (changed: bool)
    requires k < insts.Length && insts[k].Intrinsic? && insts[k].n >= 1
    modifies insts
    ensures insts[k] == Simplify(old(insts[k]))
    ensures forall j :: 0 <= j < insts.Length && j != k ==> insts[j] == old(insts[j])
    ensures changed <==> insts[k] != old(insts[k])
  {
    var i := insts[k];
    var s := Simplify(i);
    if s.Pair? {
      insts[k] := s;
      changed := true;
    } else if i.op != SSub && Swaps(i.l, i.r) {
      NamesOrdered(PrintedName(i.l), PrintedName(i.r));
      insts[k] := i.(l := i.r, r := i.l);
      changed := true;
    } else {
      changed := false;
    }
  }

  // ----- The rewritten function

  /** How the pass sees an operand: the name it prints, and whether it is a constant without one. */
  function ToOperand(f: RawFunc, names: nat -> string, u: nat): Operand {
    if u < |f.values| && f.values[u].def.ConstInt? then Constant(f.values[u].def.val)
    else Named(u, names(u), u < |f.values| &&
               (f.values[u].def.NullPtr? || f.values[u].def.OtherConst? || f.values[u].def.Undef?))
  }

  predicate IsIntrinsic(f: RawFunc, v: nat) {
    v < |f.values| && f.values[v].def.WithOverflow? && f.values[v].def.a < |f.values|
  }

  function ToInst(f: RawFunc, names: nat -> string, v: nat): Inst {
    if !IsIntrinsic(f, v) then Other
    else var WithOverflow(op, a, b) := f.values[v].def;
         Intrinsic(op, f.values[a].width, ToOperand(f, names, a), ToOperand(f, names, b))
  }

  /** The pair of result and overflow bit that an instruction gives, as one number. */
  predicate Gives(i: Inst, r: nat, e: Env) {
    match i
    case Intrinsic(op, n, x, y) =>
      r == Wrap(n, Exact(op, n, Value(x, e), Value(y, e)))
           + Pow2(n) * BoolBit(Overflows(op, n, Value(x, e), Value(y, e)))
    case Pair(n, res, x, y, overflow) =>
      r == ArithResult(res, n, Value(x, e), Value(y, e)) + Pow2(n) * BoolBit(ComparisonHolds(overflow, n, e))
    case Other => true
  }

  /** What the uses of each value read once the pass has run. */
  ghost function After(f: Func, names: nat -> string): Replacements {
    (v: nat, e: Env) => v < |f.values| &&
      if IsIntrinsic(f, v) then Gives(SimplifyInst(ToInst(f, names, v)), Lookup(e, v), e) else Computes(f, v, e)
  }

  function Replaced(f: Func): (vs: set<nat>)
    ensures forall v: nat :: v in vs <==> IsIntrinsic(f, v)
  {
    set v: nat | v in Numbers(|f.values|) && IsIntrinsic(f, v)
  }

  /** Only that the constants among the operands have their values. */
  function Support(f: RawFunc, v: nat): set<nat> {
    if !IsIntrinsic(f, v) then {}
    else set u | u in {f.values[v].def.a, f.values[v].def.b} && u < |f.values| && f.values[u].def.ConstInt?
  }

  predicate DeviatesAt(f: RawFunc, names: nat -> string, v: nat, e: Env) {
    var i := ToInst(f, names, v);
    i.Intrinsic? && i.n >= 1 && Simplify(i).Pair? && Deviates(i, e)
  }

  ghost predicate NeverDeviates(f: Func, names: nat -> string, run: seq<State>) {
    forall i: nat, v: nat :: i < |run| && v in Replaced(f) && Executed(f, run[i], v) ==>
      !DeviatesAt(f, names, v, run[i].env)
  }

  lemma ConstantsSupported(f: Func)
    ensures Supported(f, Replaced(f), v => Support(f, v))
  {
    hide f.Dominates;
    forall v: nat, u: nat, b: nat | v in Replaced(f) && u in Support(f, v) && f.Available(v, b)
      ensures u !in Replaced(f) && f.Available(u, b)
    {
      UseAvailable(f, v, u, b);
    }
  }

  /** A reordered call gives the same pair. */
  lemma CanonicalGives(i: Inst, r: nat, e: Env)
    requires i.Intrinsic? && i.op != SSub && i.op != USub
    ensures Gives(Canonicalize(i), r, e) <==> Gives(i, r, e)
  {
    var a, b := Value(i.l, e), Value(i.r, e);
    OverflowCommutes(i.op, i.n, a, b);
    assert a * b == b * a && Signed(i.n, a) * Signed(i.n, b) == Signed(i.n, b) * Signed(i.n, a);
  }

  /** The simplified instruction gives what the call gives, if and only if the call does not deviate. */
  lemma SimplifiedGives(i: Inst, r: nat, e: Env)
    requires i.Intrinsic? && OperandsFit(i, e)
    ensures !(Simplify(i).Pair? && Deviates(i, e)) ==> (Gives(Simplify(i), r, e) <==> Gives(i, r, e))
    ensures Simplify(i).Pair? && Deviates(i, e) ==> !(Gives(Simplify(i), r, e) && Gives(i, r, e))
  {
    hide Wrap, Pow2, Overflows, Exact, ComparisonHolds, Deviates, ArithResult;
    if Simplify(i).Pair? {
      SimplifyMeaning(i, e);
      BitsDiffer(i.n, ComparisonHolds(Simplify(i).overflow, i.n, e),
                 Overflows(i.op, i.n, Value(i.l, e), Value(i.r, e)));
    } else if i.op != SSub && i.op != USub {
      CanonicalGives(i, r, e);
    }
  }

  lemma BitsDiffer(n: nat, p: bool, q: bool)
    ensures Pow2(n) * BoolBit(p) == Pow2(n) * BoolBit(q) <==> p == q
  {}

  lemma AfterMeaning(f: Func, names: nat -> string, v: nat, e: Env)
    requires IsIntrinsic(f, v) && ValidEnv(f, e) && AllCompute(f, Support(f, v), e)
    ensures !DeviatesAt(f, names, v, e) ==> (After(f, names)(v, e) <==> Computes(f, v, e))
    ensures DeviatesAt(f, names, v, e) ==> !(After(f, names)(v, e) && Computes(f, v, e))
  {
    hide Wrap, Pow2, Overflows, Exact, Simplify, Deviates;
    Typing(f, v);
    var WithOverflow(op, a, b) := f.values[v].def;
    Typing(f, a);
    var i := ToInst(f, names, v);
    assert f.values[a].def.ConstInt? ==> a in Support(f, v) && Computes(f, a, e);
    assert f.values[b].def.ConstInt? ==> b in Support(f, v) && Computes(f, b, e);
    assert Value(i.l, e) == Lookup(e, a) && Value(i.r, e) == Lookup(e, b);
    assert Gives(i, Lookup(e, v), e) <==> Computes(f, v, e);
    SimplifiedGives(i, Lookup(e, v), e);
  }

  /** The rewritten function has exactly the executions of the original one in which no replaced call
      deviates. */
  lemma PassKeepsExecutions(f: Func, names: nat -> string, run: seq<State>)
    ensures NeverDeviates(f, names, run) ==> (ExecutionAfter(f, After(f, names), run) <==> Execution(f, run))
    ensures ExecutionAfter(f, After(f, names), run) && Execution(f, run) ==> NeverDeviates(f, names, run)
  {
    hide f.Available, Computes, DeviatesAt, Gives, ToInst;
    var after := After(f, names);
    ConstantsSupported(f);
    if NeverDeviates(f, names, run) {
      forall i: nat, v: nat | i < |run| && v in Replaced(f) && Executed(f, run[i], v)
        ensures AgreesAt(f, after, Support(f, v), v, run[i].env)
      {
        if AllCompute(f, Support(f, v), run[i].env) && ValidEnv(f, run[i].env) {
          AfterMeaning(f, names, v, run[i].env);
        }
      }
      SameExecutions(f, Replaced(f), v => Support(f, v), after, run);
    }
    if ExecutionAfter(f, after, run) && Execution(f, run) {
      forall i: nat, v: nat | i < |run| && v in Replaced(f) && Executed(f, run[i], v)
        ensures !DeviatesAt(f, names, v, run[i].env)
      {
        ExecutedComputes(f, Replaced(f), v => Support(f, v), run, i, v);
        ReplacementObeyed(f, after, run, i, v);
        AfterMeaning(f, names, v, run[i].env);
      }
    }
  }
}
