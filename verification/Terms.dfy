/** Bit-vector formulas: what a solver expression denotes.  Structurally equal expressions are the
    same node, because the solver hashes them. */
module Terms {
  import opened BitVec

  type Env = seq<nat>

  /** The solver's binary operations.  Its shifts take an amount of log2(width) bits. */
  datatype BvOp = Arith(op: ArithOp) | Sll | Srl | Sra

  datatype Term =
    | Const(width: nat, val: nat)
    | Var(bits: nat, id: nat)
    | Ite(c: Term, t: Term, f: Term)
    | Bin(bop: BvOp, a: Term, b: Term)
    | Cmp(cop: CmpOp, a: Term, b: Term)
    | Ovf(oop: OvfOp, a: Term, b: Term)
    | Not(a: Term)
    | Uext(a: Term, extra: nat)
    | Sext(a: Term, extra: nat)
    | Slice(a: Term, hi: nat, lo: nat)

  const True: Term := Const(1, 1)
  const False: Term := Const(1, 0)

  function Conj(x: Term, y: Term): Term { Bin(Arith(ArithOp.And), x, y) }

  function Disj(x: Term, y: Term): Term { Bin(Arith(ArithOp.Or), x, y) }

  function Width(t: Term): nat {
    match t
    case Const(w, _) => w
    case Var(w, _) => w
    case Ite(_, x, _) => Width(x)
    case Bin(_, x, _) => Width(x)
    case Cmp(_, _, _) => 1
    case Ovf(_, _, _) => 1
    case Not(x) => Width(x)
    case Uext(x, k) => Width(x) + k
    case Sext(x, k) => Width(x) + k
    case Slice(_, hi, lo) => if hi >= lo then hi - lo + 1 else 0
  }

  /** The solver aborts when the operands of an operation have the wrong widths. */
  predicate Aborts(t: Term) {
    match t
    case Const(w, v) => w == 0 || v >= Pow2(w)
    case Var(w, _) => w == 0
    case Ite(c, x, y) => Width(c) != 1 || Width(x) != Width(y)
    case Bin(Arith(_), x, y) => Width(x) != Width(y)
    case Bin(_, x, y) => Width(x) != Pow2(Width(y))
    case Cmp(_, x, y) => Width(x) != Width(y)
    case Ovf(_, x, y) => Width(x) != Width(y)
    case Not(_) => false
    case Uext(_, _) => false
    case Sext(_, _) => false
    case Slice(x, hi, lo) => lo > hi || hi >= Width(x)
  }

  function Operands(t: Term): set<Term> {
    match t
    case Const(_, _) => {}
    case Var(_, _) => {}
    case Ite(c, x, y) => {c, x, y}
    case Bin(_, x, y) => {x, y}
    case Cmp(_, x, y) => {x, y}
    case Ovf(_, x, y) => {x, y}
    case Not(x) => {x}
    case Uext(x, _) => {x}
    case Sext(x, _) => {x}
    case Slice(x, _, _) => {x}
  }

  predicate WellTyped(t: Term) {
    !Aborts(t) &&
    match t
    case Const(_, _) => true
    case Var(_, _) => true
    case Ite(c, x, y) => WellTyped(c) && WellTyped(x) && WellTyped(y)
    case Bin(_, x, y) => WellTyped(x) && WellTyped(y)
    case Cmp(_, x, y) => WellTyped(x) && WellTyped(y)
    case Ovf(_, x, y) => WellTyped(x) && WellTyped(y)
    case Not(x) => WellTyped(x)
    case Uext(x, _) => WellTyped(x)
    case Sext(x, _) => WellTyped(x)
    case Slice(x, _, _) => WellTyped(x)
  }

  function Lookup(e: Env, id: nat): nat {
    if id < |e| then e[id] else 0
  }

  function Monus(x: nat, y: nat): nat {
    if x >= y then x - y else 0
  }

  /** The value of a formula under an assignment of its variables. */
  function Eval(t: Term, e: Env): nat {
    match t
    case Const(_, v) => v
    case Var(_, id) => Lookup(e, id)
    case Ite(c, x, y) => if Eval(c, e) == 1 then Eval(x, e) else Eval(y, e)
    case Bin(op, x, y) => EvalBin(op, Width(x), Eval(x, e), Eval(y, e))
    case Cmp(op, x, y) => BoolBit(CmpHolds(op, Width(x), Eval(x, e), Eval(y, e)))
    case Ovf(op, x, y) => BoolBit(Overflows(op, Width(x), Eval(x, e), Eval(y, e)))
    case Not(x) => Monus(UMax(Width(x)), Eval(x, e))
    case Uext(x, _) => Eval(x, e)
    case Sext(x, k) => Wrap(Width(x) + k, Signed(Width(x), Eval(x, e)))
    case Slice(x, hi, lo) => Wrap(Width(t), LshrBits(Eval(x, e), lo))
  }

  function EvalBin(op: BvOp, n: nat, x: nat, y: nat): nat {
    match op
    case Arith(o) => ArithResult(o, n, x, y)
    case Sll => ShlBits(n, x, y)
    case Srl => LshrBits(x, y)
    case Sra => AshrBits(n, x, y)
  }

  predicate Holds(t: Term, e: Env) {
    Eval(t, e) == 1
  }

  /** The variables of a formula, each with the width it has there. */
  function Vars(t: Term): set<(nat, nat)> {
    match t
    case Const(_, _) => {}
    case Var(w, id) => {(w, id)}
    case Ite(c, x, y) => Vars(c) + Vars(x) + Vars(y)
    case Bin(_, x, y) => Vars(x) + Vars(y)
    case Cmp(_, x, y) => Vars(x) + Vars(y)
    case Ovf(_, x, y) => Vars(x) + Vars(y)
    case Not(x) => Vars(x)
    case Uext(x, _) => Vars(x)
    case Sext(x, _) => Vars(x)
    case Slice(x, _, _) => Vars(x)
  }

  /** A formula only looks at its own variables. */
  lemma {:induction false} EvalFrame(t: Term, e: Env, e': Env)
    requires forall v :: v in Vars(t) ==> Lookup(e, v.1) == Lookup(e', v.1)
    ensures Eval(t, e) == Eval(t, e')
  {
    match t {
      case Const(_, _) =>
      case Var(w, id) => assert (w, id) in Vars(t);
      case Ite(c, x, y) => EvalFrame(c, e, e'); EvalFrame(x, e, e'); EvalFrame(y, e, e');
      case Bin(_, x, y) => EvalFrame(x, e, e'); EvalFrame(y, e, e');
      case Cmp(_, x, y) => EvalFrame(x, e, e'); EvalFrame(y, e, e');
      case Ovf(_, x, y) => EvalFrame(x, e, e'); EvalFrame(y, e, e');
      case Not(x) => EvalFrame(x, e, e');
      case Uext(x, _) => EvalFrame(x, e, e');
      case Sext(x, _) => EvalFrame(x, e, e');
      case Slice(x, _, _) => EvalFrame(x, e, e');
    }
  }

  /** Every variable of the formula has a value of the variable's width. */
  predicate Assigns(e: Env, t: Term) {
    forall v :: v in Vars(t) ==> Lookup(e, v.1) < Pow2(v.0)
  }

  /** A well-typed formula has a value of its own width. */
  lemma {:induction false} EvalBounded(t: Term, e: Env)
    requires WellTyped(t) && Assigns(e, t)
    ensures Width(t) >= 1 && Eval(t, e) < Pow2(Width(t))
  {
    match t {
      case Const(_, _) =>
      case Var(w, id) => assert (w, id) in Vars(t);
      case Ite(c, x, y) => EvalBounded(x, e); EvalBounded(y, e);
      case Bin(Arith(op), x, y) =>
        EvalBounded(x, e); EvalBounded(y, e);
        ArithBounded(op, Width(x), Eval(x, e), Eval(y, e));
      case Bin(_, x, y) => EvalBounded(x, e);
      case Cmp(_, x, y) => assert Pow2(1) == 2;
      case Ovf(_, x, y) => assert Pow2(1) == 2;
      case Not(x) => EvalBounded(x, e);
      case Uext(x, k) => EvalBounded(x, e); Pow2Mono(Width(x), Width(x) + k);
      case Sext(x, _) => EvalBounded(x, e);
      case Slice(x, _, _) =>
    }
  }

  // ----- One-bit formulas

  lemma BitOrOne(x: nat, y: nat)
    requires x < 2 && y < 2
    ensures BitOr(x, y) == 1 <==> x == 1 || y == 1
    ensures BitAnd(x, y) == 1 <==> x == 1 && y == 1
  {
    assert BitOr(0, 0) == 0;
    assert BitAnd(0, 0) == 0;
  }

  lemma OneBitAssigned(t: Term, e: Env)
    requires WellTyped(t) && Width(t) == 1 && Assigns(e, t)
    ensures Eval(t, e) < 2
  {
    EvalBounded(t, e);
    assert Pow2(1) == 2;
  }

  lemma HoldsConnectives(x: Term, y: Term, e: Env)
    requires Width(x) == 1 && Eval(x, e) < 2 && Eval(y, e) < 2
    ensures Holds(Conj(x, y), e) <==> Holds(x, e) && Holds(y, e)
    ensures Holds(Disj(x, y), e) <==> Holds(x, e) || Holds(y, e)
    ensures Holds(Not(x), e) <==> !Holds(x, e)
    ensures Eval(Conj(x, y), e) < 2 && Eval(Disj(x, y), e) < 2 && Eval(Not(x), e) < 2
  {
    BitOrOne(Eval(x, e), Eval(y, e));
    assert Pow2(1) == 2;
    BitOpsBounded(1, Eval(x, e), Eval(y, e));
  }
}
