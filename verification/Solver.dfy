/** The solver behind SMTExpr: Boolector's expressions, its external reference counts, and the
    shift encoding.  Calls into the library itself are one-line wrappers; a call that builds an
    expression hands its caller one reference. */
module Solver {
  import opened BitVec
  import opened Terms

  datatype SMTStatus = TIMEOUT | UNDEF | UNSAT | SAT

  predicate IsShift(op: BvOp) {
    op.Sll? || op.Srl? || op.Sra?
  }

  /** The expression built for a shift of n-bit operands: widen to a power of two, shift by the low
      log2 bits of the amount, cut back. */
  function ShiftTerm(op: BvOp, e0: Term, e1: Term): (r: Term)
    requires IsShift(op) && Width(e0) == Width(e1) >= 2
    ensures Width(r) == Width(e0)
  {
    var n := Width(e1);
    var amount := CeilLog2(n);
    var x := if Pow2(amount) != n then Uext(e0, Pow2(amount) - n) else e0;
    var shifted := Bin(op, x, Slice(e1, amount - 1, 0));
    if Pow2(amount) != n then Slice(shifted, n - 1, 0) else shifted
  }

  lemma ShiftTermVars(op: BvOp, e0: Term, e1: Term)
    requires IsShift(op) && Width(e0) == Width(e1) >= 2
    ensures Vars(ShiftTerm(op, e0, e1)) == Vars(e0) + Vars(e1)
  {
    hide Pow2, CeilLog2, Width, Vars, ShiftTerm;
    var extra, hi, cut := ShiftTermForm(op, e0, e1);
    WidenedVars(op, e0, e1, extra, hi, cut);
    SameVars(e1, hi, 0);
    BothVars(op, e0, Slice(e1, hi, 0));
  }

  lemma ShiftTermForm(op: BvOp, e0: Term, e1: Term) returns (extra: nat, hi: nat, cut: nat)
    requires IsShift(op) && Width(e0) == Width(e1) >= 2
    ensures || ShiftTerm(op, e0, e1) == Slice(Bin(op, Uext(e0, extra), Slice(e1, hi, 0)), cut, 0)
            || ShiftTerm(op, e0, e1) == Bin(op, e0, Slice(e1, hi, 0))
  {
    hide Pow2, CeilLog2, Width;
    ShiftTermIs(op, e0, e1);
    var n, k := Width(e1), CeilLog2(Width(e1));
    extra, hi, cut := Pow2(k) - n, k - 1, n - 1;
  }

  lemma WidenedVars(op: BvOp, e0: Term, e1: Term, extra: nat, hi: nat, cut: nat)
    ensures Vars(Slice(Bin(op, Uext(e0, extra), Slice(e1, hi, 0)), cut, 0)) == Vars(e0) + Vars(e1)
  {
    hide Vars;
    var x, low := Uext(e0, extra), Slice(e1, hi, 0);
    SameVars(e0, 0, extra);
    SameVars(e1, hi, 0);
    BothVars(op, x, low);
    SameVars(Bin(op, x, low), cut, 0);
  }

  lemma ShiftTermIs(op: BvOp, e0: Term, e1: Term)
    requires IsShift(op) && Width(e0) == Width(e1) >= 2
    ensures var n, k := Width(e1), CeilLog2(Width(e1));
            && 1 <= k && Pow2(k) >= n
            && ShiftTerm(op, e0, e1) ==
                 if Pow2(k) != n then Slice(Bin(op, Uext(e0, Pow2(k) - n), Slice(e1, k - 1, 0)), n - 1, 0)
                 else Bin(op, e0, Slice(e1, k - 1, 0))
  {
    hide Pow2, CeilLog2, Width;
  }

  lemma SameVars(t: Term, i: nat, k: nat)
    ensures Vars(Slice(t, i, k)) == Vars(t) && Vars(Uext(t, k)) == Vars(t)
  {}

  lemma BothVars(op: BvOp, x: Term, y: Term)
    ensures Vars(Bin(op, x, y)) == Vars(x) + Vars(y)
  {}

  lemma CeilLog2Small(n: nat)
    requires n >= 2
    ensures 1 <= CeilLog2(n) <= n
  {
    Pow2Exceeds(CeilLog2(n) - 1);
  }

  /** What the shift encoding computes: the amount is reduced modulo the next power of two, and for
      any other width an arithmetic shift does not see the sign. */
  lemma ShiftMeaning(op: BvOp, e0: Term, e1: Term, e: Env)
    requires IsShift(op) && Width(e0) == Width(e1) >= 2
    requires Eval(e0, e) < Pow2(Width(e0)) && Eval(e1, e) < Pow2(Width(e1))
    ensures var n := Width(e0); var s := Eval(e1, e) % Pow2(CeilLog2(n)); var x := Eval(e0, e);
            Eval(ShiftTerm(op, e0, e1), e) ==
            match op
            case Sll => ShlBits(n, x, s)
            case Srl => LshrBits(x, s)
            case _ => if IsPow2Width(n) then AshrBits(n, x, s) else LshrBits(x, s)
  {
    hide Pow2, Wrap, ShlBits, LshrBits, AshrBits, CeilLog2, IsPow2Width, EvalBin, ShiftTerm;
    ShiftTermIs(op, e0, e1);
    var n := Width(e1);
    var k := CeilLog2(n);
    var x := Eval(e0, e);
    var s := Wrap(k, Eval(e1, e));
    CeilLog2Small(n);
    LowSlice(e1, k, e);
    WrapIsMod(k, Eval(e1, e));
    Pow2WidthIs(n);
    if Pow2(k) != n {
      var wide := Bin(op, Uext(e0, Pow2(k) - n), Slice(e1, k - 1, 0));
      LowSlice(wide, n, e);
      assert Eval(wide, e) == EvalBin(op, Pow2(k), x, s);
      WidenedShift(op, n, k, x, s);
    } else {
      ShiftCases(op, n, x, s);
    }
  }

  lemma Pow2WidthIs(n: nat)
    requires n >= 1
    ensures IsPow2Width(n) <==> Pow2(CeilLog2(n)) == n
  {}

  lemma ShiftCases(op: BvOp, n: nat, x: nat, s: nat)
    requires IsShift(op)
    ensures EvalBin(op, n, x, s) ==
            match op
            case Sll => ShlBits(n, x, s)
            case Srl => LshrBits(x, s)
            case _ => AshrBits(n, x, s)
  {}

  lemma WrapIsMod(k: nat, y: nat)
    ensures Wrap(k, y) == y % Pow2(k)
  {
  }

  lemma LowSlice(t: Term, k: nat, e: Env)
    requires k >= 1
    ensures Eval(Slice(t, k - 1, 0), e) == Wrap(k, Eval(t, e))
  {
    DivByOne(Eval(t, e));
  }

  lemma WidenedShift(op: BvOp, n: nat, k: nat, x: nat, s: nat)
    requires IsShift(op) && n < Pow2(k) && x < Pow2(n)
    ensures Wrap(n, EvalBin(op, Pow2(k), x, s)) == if op == Sll then ShlBits(n, x, s) else LshrBits(x, s)
  {
    var w := Pow2(k);
    if op == Sll {
      WrapWrap(n, w, x * Pow2(s));
    } else {
      WrapId(n, LshrBits(x, s));
      if op == Sra {
        Pow2Mono(n + 1, w);
        WrapId(w, LshrBits(x, s));
      }
    }
  }

  lemma DivByOne(y: nat)
    ensures LshrBits(y, 0) == y
  {
    assert Pow2(0) == 1;
  }

  /** For an amount below the width, the encoding is the shift -- except that an arithmetic shift
      of a negative value by a positive amount goes wrong at widths that are not powers of two. */
  lemma ShiftInRange(op: BvOp, e0: Term, e1: Term, e: Env)
    requires IsShift(op) && Width(e0) == Width(e1) >= 2
    requires Eval(e0, e) < Pow2(Width(e0)) && Eval(e1, e) < Width(e0)
    ensures var n := Width(e0); var s := Eval(e1, e); var x := Eval(e0, e);
            Eval(ShiftTerm(op, e0, e1), e) == EvalBin(op, n, x, s) <==>
            op != Sra || IsPow2Width(n) || 2 * x < Pow2(n) || s == 0
  {
    var n, s, x := Width(e0), Eval(e1, e), Eval(e0, e);
    Pow2Exceeds(n);
    WrapId(CeilLog2(n), s);
    ShiftMeaning(op, e0, e1, e);
    if op == Sra && !IsPow2Width(n) {
      AshrIsLshr(n, x, s);
    }
  }

  lemma ThreeBitPowers()
    ensures Pow2(1) == 2 && Pow2(2) == 4 && Pow2(3) == 8
    ensures CeilLog2(3) == 2
  {}

  /** In 3 bits, the number -4 shifted right by 1 is -2, whose bits are 6; the encoding gives 2. */
  lemma OddWidthExample()
    ensures Eval(ShiftTerm(Sra, Var(3, 0), Var(3, 1)), [4, 1]) == 2 && EvalBin(Sra, 3, 4, 1) == 6
  {
    hide ShiftTerm, Pow2;
    ThreeBitPowers();
    ShiftMeaning(Sra, Var(3, 0), Var(3, 1), [4, 1]);
  }

  /** An arithmetic shift is a logical one exactly on non-negative values and for amount 0. */
  lemma AshrIsLshr(n: nat, x: nat, s: nat)
    requires n >= 1 && x < Pow2(n)
    ensures AshrBits(n, x, s) == LshrBits(x, s) <==> 2 * x < Pow2(n) || s == 0
  {
    if s == 0 {
      DivByOne(x);
      SignedRange(n, x);
    } else if 2 * x < Pow2(n) {
      WrapId(n, LshrBits(x, s));
    } else {
      var d := Pow2(s);
      var q := (x - Pow2(n)) / d;
      FloorOfNegative(x - Pow2(n), d);
      WrapUnique(n, q, q + Pow2(n), -1);
      HalfBound(x, d);
    }
  }

  lemma FloorOfNegative(v: int, d: nat)
    requires v < 0 && d >= 1
    ensures v <= v / d < 0
  {
    var q, r := v / d, v % d;
    assert v == q * d + r;
    if q >= 0 {
      MulLe(0, q, d);
      assert false;
    }
    if q < v {
      NegMul(v, d);
      BelowProduct(q, v, d);
      assert false;
    }
  }

  lemma BelowProduct(q: int, v: int, d: nat)
    requires q < v
    ensures q * d <= v * d - d
  {
    MulLe(q, v - 1, d);
    assert (v - 1) * d == v * d - d;
  }

  lemma NegMul(q: int, d: nat)
    requires q < 0 && d >= 1
    ensures q * d <= q
  {
    MulGe(-q, d);
    assert q * d == -(-q * d);
  }

  // ----- Oversized amounts

  /** The value IdealShift selects when the amount reaches the width. */
  function IdealTerm(op: BvOp, l: Term): Term
    requires IsShift(op) && Width(l) >= 2
  {
    var n := Width(l);
    if op == Sra then ShiftTerm(Sra, l, Const(n, n - 1)) else Const(n, 0)
  }

  /** The encoding of a shift after IdealShift: select(amount >= width, ideal, shift). */
  function GuardedShiftTerm(op: BvOp, l: Term, r: Term): Term
    requires IsShift(op) && Width(l) == Width(r) >= 2
  {
    Ite(Cmp(Uge, r, Const(Width(l), Width(l))), IdealTerm(op, l), ShiftTerm(op, l, r))
  }

  /** Behind IdealShift's select the encoding is the mathematical shift by any amount at all;
      the only exception is the sign of an arithmetic shift at other widths. */
  lemma GuardedShiftIsMathematical(op: BvOp, l: Term, r: Term, e: Env)
    requires IsShift(op) && Width(l) == Width(r) >= 2
    requires Eval(l, e) < Pow2(Width(l)) && Eval(r, e) < Pow2(Width(r))
    ensures var n := Width(l); var s := Eval(r, e); var x := Eval(l, e);
            Eval(GuardedShiftTerm(op, l, r), e) == EvalBin(op, n, x, s) <==>
            op != Sra || IsPow2Width(n) || 2 * x < Pow2(n) || s == 0
  {
    hide ShlBits, LshrBits, AshrBits, Pow2, ShiftTerm, CeilLog2, IsPow2Width;
    var n, s, x := Width(l), Eval(r, e), Eval(l, e);
    var t := Cmp(Uge, r, Const(n, n));
    assert Eval(t, e) == BoolBit(s >= n);
    if s < n {
      ShiftInRange(op, l, r, e);
    } else {
      if op == Sra {
        ShiftInRange(Sra, l, Const(n, n - 1), e);
        AshrSaturates(n, x, s);
      } else {
        ShiftedOut(n, x, s);
      }
    }
  }

  lemma ShiftedOut(n: nat, x: nat, s: nat)
    requires x < Pow2(n) && s >= n
    ensures ShlBits(n, x, s) == 0 && LshrBits(x, s) == 0
  {
    Pow2Mono(n, s);
    DivModUnique(x, Pow2(s), 0, x);
    Pow2Add(s - n, n);
    MulMod(x, Pow2(s - n), Pow2(n));
  }

  lemma MulMod(x: nat, a: nat, d: nat)
    requires d >= 1
    ensures (x * (a * d)) % d == 0
  {
    assert x * (a * d) == (x * a) * d;
    DivModUnique(x * (a * d), d, x * a, 0);
  }

  /** Shifting by n - 1 already leaves only the sign. */
  lemma AshrSaturates(n: nat, x: nat, s: nat)
    requires n >= 1 && x < Pow2(n) && s >= n - 1
    ensures AshrBits(n, x, s) == AshrBits(n, x, n - 1)
  {
    Pow2Mono(n - 1, s);
    SignFill(Signed(n, x), Pow2(n - 1));
    SignFill(Signed(n, x), Pow2(s));
  }

  lemma SignFill(v: int, d: nat)
    requires d >= 1 && 0 - d <= v < d
    ensures v / d == if v >= 0 then 0 else -1
  {
    if v >= 0 {
      DivModUnique(v, d, 0, v);
    } else {
      DivModUnique(v, d, -1, v + d);
    }
  }

  // ----- The solver object

  /** UNSAT is only answered when no assignment satisfies the assertions and the query. */
  ghost predicate SoundDecision(decide: (set<Term>, Term) -> SMTStatus) {
    forall asserted: set<Term>, q: Term, e: Env ::
      decide(asserted, q) == UNSAT && Assigns(e, q) && Holds(q, e) &&
      (forall a :: a in asserted ==> Assigns(e, a)) ==>
      exists a :: a in asserted && !Holds(a, e)
  }

  /** A solver that moreover always finds out when nothing satisfies a query. */
  ghost predicate CompleteDecision(decide: (set<Term>, Term) -> SMTStatus) {
    forall asserted: set<Term>, q: Term :: Refuted(asserted, q) ==> decide(asserted, q) == UNSAT
  }

  ghost predicate Refuted(asserted: set<Term>, q: Term) {
    forall e: Env :: Assigns(e, q) && (forall a :: a in asserted ==> Assigns(e, a) && Holds(a, e)) ==> !Holds(q, e)
  }

  /** The expressions of the widened shift can be built. */
  lemma WidenedBuilds(op: BvOp, e0: Term, e1: Term, amount: nat, power2: nat)
    requires IsShift(op) && 1 <= amount <= Width(e1) == Width(e0) < power2 == Pow2(amount)
    ensures var x := Uext(e0, power2 - Width(e0)); var wide := Bin(op, x, Slice(e1, amount - 1, 0));
            && Width(x) == power2 && !Aborts(x) && Operands(x) == {e0}
            && !Aborts(Slice(wide, Width(e0) - 1, 0)) && Operands(Slice(wide, Width(e0) - 1, 0)) == {wide}
  {
    hide Pow2;
  }

  class SMTSolver {
    /** The references handed out and not yet released. */
    var refs: multiset<Term>
    var asserted: set<Term>
    const decide: (set<Term>, Term) -> SMTStatus

    constructor (decide: (set<Term>, Term) -> SMTStatus)
      ensures refs == multiset{} && asserted == {} && this.decide == decide
    {
      refs, asserted, this.decide := multiset{}, {}, decide;
    }

    /** Any of the wrappers that build an expression: bvand, bvnot, eq, bvconst, bvvar, ... */
    method Build(t: Term) returns (r: Term)
      requires !Aborts(t)
      requires forall x :: x in Operands(t) ==> x in refs
      modifies this`refs
      ensures r == t && refs == old(refs) + multiset{t}
    {
      refs := refs + multiset{t};
      r := t;
    }

    method Incref(t: Term)
      requires t in refs
      modifies this`refs
      ensures refs == old(refs) + multiset{t}
    {
      refs := refs + multiset{t};
    }

    method Decref(t: Term)
      requires t in refs
      modifies this`refs
      ensures refs == old(refs) - multiset{t}
    {
      refs := refs - multiset{t};
    }

    /** Build an expression from one or two operands the caller holds, and release them: the
        sequence "Tmp = op(X, Y); decref(X); decref(Y)".  The caller's other references are base. */
    method Combine(t: Term, x: Term, y: Term, ghost base: multiset<Term>) returns (r: Term)
      requires !Aborts(t) && Operands(t) == {x, y}
      requires refs == base + multiset{x} + multiset{y}
      modifies this`refs
      ensures r == t && refs == base + multiset{t}
    {
      r := Build(t);
      Decref(x);
      Decref(y);
    }

    /** The same for operands of which only x is the caller's; the other ones are borrowed. */
    method Convert(t: Term, x: Term, ghost base: multiset<Term>) returns (r: Term)
      requires !Aborts(t) && forall y :: y in Operands(t) ==> y in refs
      requires refs == base + multiset{x}
      modifies this`refs
      ensures r == t && refs == base + multiset{t}
    {
      r := Build(t);
      Decref(x);
    }

    method Assume(t: Term)
      requires t in refs && Width(t) == 1
      modifies this`asserted
      ensures asserted == old(asserted) + {t}
    {
      asserted := asserted + {t};
    }

    method Query(t: Term) returns (status: SMTStatus)
      requires t in refs && Width(t) == 1
      ensures status == decide(asserted, t)
    {
      status := decide(asserted, t);
    }

    /** bvshl, bvlshr and bvashr: every intermediate expression is released again. */
    method Shift(op: BvOp, e0: Term, e1: Term) returns (result: Term)
      requires IsShift(op) && Width(e0) == Width(e1) >= 2
      requires e0 in refs && e1 in refs
      modifies this`refs
      ensures result == ShiftTerm(op, e0, e1)
      ensures refs == old(refs) + multiset{result}
    {
      var n := Width(e1);
      var amount := CeilLog2(n);
      CeilLog2Small(n);
      var power2 := Pow2(amount);
      if power2 != n {
        result := ShiftWidened(op, e0, e1, amount, power2);
      } else {
        result := ShiftLow(op, e0, e1, amount);
      }
    }

    /** Zero-extend the first operand to a power of two, and truncate the result back. */
    method ShiftWidened(op: BvOp, e0: Term, e1: Term, amount: nat, power2: nat) returns (result: Term)
      requires IsShift(op) && 1 <= amount <= Width(e1) == Width(e0) < power2 == Pow2(amount)
      requires e0 in refs && e1 in refs
      modifies this`refs
      ensures result == Slice(Bin(op, Uext(e0, power2 - Width(e0)), Slice(e1, amount - 1, 0)), Width(e0) - 1, 0)
      ensures refs == old(refs) + multiset{result}
    {
      hide Pow2, CeilLog2, Width, Aborts, Operands;
      WidenedBuilds(op, e0, e1, amount, power2);
      var x := Build(Uext(e0, power2 - Width(e0)));
      var wide := ShiftLow(op, x, e1, amount);
      Decref(x);
      assert refs == old(refs) + multiset{wide};
      result := Convert(Slice(wide, Width(e0) - 1, 0), wide, old(refs));
    }

    /** The common middle part: shift by the low bits of the amount. */
    method ShiftLow(op: BvOp, x: Term, e1: Term, amount: nat) returns (result: Term)
      requires IsShift(op) && 1 <= amount <= Width(e1) && Width(x) == Pow2(amount)
      requires x in refs && e1 in refs
      modifies this`refs
      ensures result == Bin(op, x, Slice(e1, amount - 1, 0))
      ensures refs == old(refs) + multiset{result}
    {
      var log2w := Build(Slice(e1, amount - 1, 0));
      result := Convert(Bin(op, x, log2w), log2w, old(refs));
    }

    /** The destructor asserts that no reference is left. */
    method Delete()
      requires refs == multiset{}
    {
    }
  }
}
