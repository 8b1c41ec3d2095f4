/** OverflowIdiom: comparisons against a quotient that test for multiplication overflow become
    overflow intrinsics. */
module OverflowIdioms {
  import opened BitVec
  import opened Terms
  import opened SSA
  import opened FiniteSets
  import opened Rewriting

  /** The value that replaces a comparison, over the operands x and y and the constant c. */
  datatype Rewrite =
    | UMulOverflow(x: nat, y: nat)
    | NarrowProduct(x: nat, y: nat, c: nat, bits: nat)  // x > c || y > c || umul.overflow at fewer bits
    | WideProduct(x: nat, y: nat, c: nat)               // product at twice the width > c
    | Inverted(r: Rewrite)                              // xor 1

  /** InvalidType stands for asking LLVM for an integer type of zero bits. */
  datatype MatchResult = NoMatch | Rewritten(r: Rewrite) | InvalidType

  function Inverse(p: CmpOp): CmpOp {
    match p
    case Eq => Ne case Ne => Eq
    case Sge => Slt case Slt => Sge case Sgt => Sle case Sle => Sgt
    case Uge => Ult case Ult => Uge case Ugt => Ule case Ule => Ugt
  }

  function Swapped(p: CmpOp): CmpOp {
    match p
    case Eq => Eq case Ne => Ne
    case Sge => Sle case Sle => Sge case Sgt => Slt case Slt => Sgt
    case Uge => Ule case Ule => Uge case Ugt => Ult case Ult => Ugt
  }

  function TrailingOnes(v: nat): nat {
    if v % 2 == 1 then 1 + TrailingOnes(v / 2) else 0
  }

  predicate IsPowerOfTwo(v: nat) {
    v == 1 || (v > 1 && v % 2 == 0 && IsPowerOfTwo(v / 2))
  }

  predicate IsBinary(f: RawFunc, v: nat, op: ArithOp) {
    v < |f.values| && f.values[v].def.Binary? && f.values[v].def.bin == Plain(op)
  }

  function MatchCmp(f: RawFunc, pred: CmpOp, l: nat, r: nat): MatchResult
    requires l < |f.values|
  {
    if pred == Ne && IsBinary(f, r, UDiv) && IsBinary(f, f.values[r].def.a, Mul)
       && var y := f.values[r].def.b; var Binary(_, a, b) := f.values[f.values[r].def.a].def;
          (a == l && b == y) || (a == y && b == l)
    then Rewritten(UMulOverflow(l, f.values[r].def.b))
    else if pred == Ugt && IsBinary(f, r, UDiv)
            && f.values[r].def.a < |f.values| && f.values[f.values[r].def.a].def.ConstInt?
    then
      var y, c := f.values[r].def.b, f.values[f.values[r].def.a].def.val;
      if c == UMax(f.values[f.values[r].def.a].width) then Rewritten(UMulOverflow(l, y))
      else if IsPowerOfTwo(c + 1) then
        if TrailingOnes(c) == 0 then InvalidType else Rewritten(NarrowProduct(l, y, c, TrailingOnes(c)))
      else Rewritten(WideProduct(l, y, c))
    else NoMatch
  }

  function MatchCmpWithInverse(f: RawFunc, pred: CmpOp, l: nat, r: nat): MatchResult
    requires l < |f.values|
  {
    var direct := MatchCmp(f, pred, l, r);
    if !direct.NoMatch? then direct else
      match MatchCmp(f, Inverse(pred), l, r)
      case Rewritten(v) => Rewritten(Inverted(v))
      case other => other
  }

  function MatchCmpWithSwappedAndInverse(f: RawFunc, pred: CmpOp, l: nat, r: nat): MatchResult
    requires l < |f.values| && r < |f.values|
  {
    var direct := MatchCmpWithInverse(f, pred, l, r);
    if !direct.NoMatch? then direct else MatchCmpWithInverse(f, Swapped(pred), r, l)
  }

  // ----- Meaning

  /** The value of the replacement. */
  function RewriteValue(f: RawFunc, v: Rewrite, e: Env): nat
    requires Operand(v).0 < |f.values|
  {
    match v
    case UMulOverflow(x, y) => BoolBit(Overflows(UMul, f.values[x].width, Lookup(e, x), Lookup(e, y)))
    case NarrowProduct(x, y, c, k) =>
      BitOr(BitOr(BoolBit(Lookup(e, x) > c), BoolBit(Lookup(e, y) > c)),
            BoolBit(Overflows(UMul, k, Wrap(k, Lookup(e, x)), Wrap(k, Lookup(e, y)))))
    case WideProduct(x, y, c) => BoolBit(Wrap(2 * f.values[x].width, Lookup(e, x) * Lookup(e, y)) > c)
    case Inverted(r) => BitXor(RewriteValue(f, r, e), 1)
  }

  function Operand(v: Rewrite): (nat, nat) {
    match v
    case UMulOverflow(x, y) => (x, y)
    case NarrowProduct(x, y, _, _) => (x, y)
    case WideProduct(x, y, _) => (x, y)
    case Inverted(r) => Operand(r)
  }

  /** The one shape the pass gets wrong: at a narrower width, a zero operand and a divisor above c. */
  predicate Deviates(v: Rewrite, e: Env) {
    match v
    case NarrowProduct(x, y, c, _) => Lookup(e, x) == 0 && Lookup(e, y) > c
    case Inverted(r) => Deviates(r, e)
    case _ => false
  }

  lemma InversePredicate(p: CmpOp, n: nat, a: nat, b: nat)
    ensures CmpHolds(Inverse(p), n, a, b) <==> !CmpHolds(p, n, a, b)
    ensures CmpHolds(Swapped(p), n, b, a) <==> CmpHolds(p, n, a, b)
  {
  }

  lemma {:induction false} PowerOfTwoOnes(c: nat)
    requires IsPowerOfTwo(c + 1)
    ensures c + 1 == Pow2(TrailingOnes(c))
  {
    if c > 0 {
      assert (c + 1) / 2 == c / 2 + 1;
      PowerOfTwoOnes(c / 2);
    }
  }

  /** x differs from (x * y mod 2^n) / y exactly when the product overflows. */
  lemma ProductOverflow(x: nat, y: nat, n: nat)
    requires y >= 1 && x < Pow2(n) && y < Pow2(n)
    ensures x != Wrap(n, x * y) / y <==> Overflows(UMul, n, x, y)
  {
    var d := Pow2(n);
    var p := x * y;
    if p < d {
      WrapId(n, p);
      DivModUnique(p, y, x, 0);
    } else {
      var w := Wrap(n, p);
      assert p == p / d * d + w;
      assert w <= p - d by {
        AtLeastOne(p, d);
        MulLe(1, p / d, d);
      }
      QuotientBelow(w, x, y);
    }
  }

  lemma AtLeastOne(p: nat, d: nat)
    requires 1 <= d <= p
    ensures p / d >= 1
  {
    var q, r := p / d, p % d;
    assert p == q * d + r;
    if q <= 0 {
      MulLe(q, 0, d);
      assert false;
    }
  }

  lemma QuotientBelow(w: nat, x: nat, y: nat)
    requires y >= 1 && w < x * y
    ensures w / y < x
  {
    var q, r := w / y, w % y;
    assert w == q * y + r;
    if q >= x {
      MulLe(x, q, y);
    }
  }

  lemma NarrowOverflow(x: nat, y: nat, c: nat, k: nat)
    requires y >= 1 && c + 1 == Pow2(k)
    ensures var r := x > c || y > c || Overflows(UMul, k, Wrap(k, x), Wrap(k, y));
            r == (x * y > c) <==> !(x == 0 && y > c)
  {
    hide Pow2;
    if x <= c && y <= c {
      WrapId(k, x);
      WrapId(k, y);
    } else if x > c {
      MulGe(x, y);
    } else if x != 0 {
      MulGe(y, x);
      assert x * y == y * x;
    }
  }

  lemma WideOverflow(x: nat, y: nat, n: nat)
    requires x < Pow2(n) && y < Pow2(n)
    ensures Wrap(2 * n, x * y) == x * y
  {
    var d := Pow2(n);
    Pow2Add(n, n);
    MulLe(x, d - 1, y);
    MulLe(y, d, d - 1);
    assert (d - 1) * y == y * (d - 1) && d * (d - 1) == d * d - d;
    WrapId(2 * n, x * y);
  }

  predicate IsFactor(f: RawFunc, m: nat) {
    IsBinary(f, m, Mul) || (m < |f.values| && f.values[m].def.ConstInt?)
  }

  /** What a match looks at below an operand: a division, and the product or constant divided. */
  function Division(f: RawFunc, r: nat): set<nat> {
    if !IsBinary(f, r, UDiv) then {}
    else if IsFactor(f, f.values[r].def.a) then {r, f.values[r].def.a} else {r}
  }

  lemma DivisionFacts(f: Func, r: nat, e: Env)
    requires Sized(f, e) && IsBinary(f, r, UDiv) && AllCompute(f, Division(f, r), e)
    requires Lookup(e, f.values[r].def.b) != 0
    ensures var Binary(_, m, y) := f.values[r].def;
            && m < |f.values| && y < |f.values|
            && f.values[m].width == f.values[y].width == f.values[r].width
            && 1 <= Lookup(e, y) < Pow2(f.values[r].width)
            && Lookup(e, r) == Lookup(e, m) / Lookup(e, y)
            && (IsBinary(f, m, Mul) ==>
                  Lookup(e, m) == Wrap(f.values[m].width, Lookup(e, f.values[m].def.a) * Lookup(e, f.values[m].def.b)))
            && (f.values[m].def.ConstInt? ==> Lookup(e, m) == f.values[m].def.val)
  {
    hide Pow2, Wrap;
    Typing(f, r);
    assert Computes(f, r, e);
  }

  /** The pass asks for a type of zero bits exactly for "x > 0 / y". */
  lemma InvalidTypeExactly(f: Func, pred: CmpOp, l: nat, r: nat)
    requires l < |f.values| && f.IsInt(r, f.values[l].width)
    ensures MatchCmp(f, pred, l, r).InvalidType? <==>
              && pred == Ugt && IsBinary(f, r, UDiv) && f.values[r].def.a < |f.values|
              && f.values[f.values[r].def.a].def == ConstInt(0)
  {
    hide Pow2;
    Typing(f, r);
    if IsBinary(f, r, UDiv) {
      var a := f.values[r].def.a;
      Typing(f, a);
      PowerOfTwoUMax(f.values[a].width);
      assert TrailingOnes(0) == 0 && IsPowerOfTwo(1);
      if f.values[a].def.ConstInt? && IsPowerOfTwo(f.values[a].def.val + 1) {
        PowerOfTwoOnes(f.values[a].def.val);
        ZeroOnes(f.values[a].def.val);
      }
    }
  }

  lemma PowerOfTwoUMax(n: nat)
    requires n >= 1
    ensures UMax(n) >= 1
  {}

  lemma ZeroOnes(c: nat)
    requires c + 1 == Pow2(TrailingOnes(c))
    ensures TrailingOnes(c) == 0 <==> c == 0
  {}

  /** x > c / d, as the pass writes it: by the product, whatever shape c has. */
  lemma QuotientMatch(f: Func, v: Rewrite, x: nat, d: nat, c: nat, e: Env)
    requires v.UMulOverflow? || v.NarrowProduct? || v.WideProduct?
    requires v.x < |f.values| && x == Lookup(e, v.x) && d == Lookup(e, v.y) >= 1
    requires v.UMulOverflow? ==> c == UMax(f.values[v.x].width)
    requires v.NarrowProduct? ==> v.c == c && IsPowerOfTwo(c + 1) && v.bits == TrailingOnes(c)
    requires v.WideProduct? ==> v.c == c && x < Pow2(f.values[v.x].width) && d < Pow2(f.values[v.x].width)
    ensures RewriteValue(f, v, e) == BoolBit(x > c / d) <==> !Deviates(v, e)
  {
    hide Pow2, Wrap, BitOr;
    QuotientBound(x, d, c);
    match v {
      case UMulOverflow(_, _) =>
      case NarrowProduct(_, _, _, _) => NarrowMeaning(f, v, c, e);
      case WideProduct(_, _, _) => WideOverflow(x, d, f.values[v.x].width);
    }
  }

  /** A direct match has the value of the comparison, except where it deviates. */
  lemma MatchCmpMeaning(f: Func, pred: CmpOp, l: nat, r: nat, e: Env)
    requires Sized(f, e) && r < |f.values| && AllCompute(f, Division(f, r), e)
    requires f.IsInt(l, f.values[r].width) && MatchCmp(f, pred, l, r).Rewritten?
    requires Lookup(e, Operand(MatchCmp(f, pred, l, r).r).1) != 0
    ensures var v := MatchCmp(f, pred, l, r).r; var n := f.values[l].width;
            && !v.Inverted? && Operand(v).0 == l
            && (RewriteValue(f, v, e) == BoolBit(CmpHolds(pred, n, Lookup(e, l), Lookup(e, r))) <==> !Deviates(v, e))
  {
    hide AllCompute, Computes, Wrap, Pow2, BitOr, Overflows, TrailingOnes, IsPowerOfTwo, Division, IsFactor;
    var v, n := MatchCmp(f, pred, l, r).r, f.values[l].width;
    var y, m := f.values[r].def.b, f.values[r].def.a;
    DivisionFacts(f, r, e);
    var x, d := Lookup(e, l), Lookup(e, y);
    if pred == Ne {
      assert x * d == d * x;
      ProductOverflow(x, d, n);
    } else {
      hide RewriteValue, Deviates;
      assert Lookup(e, l) < Pow2(n);
      QuotientMatch(f, v, x, d, f.values[m].def.val, e);
    }
  }

  lemma NarrowMeaning(f: RawFunc, v: Rewrite, c: nat, e: Env)
    requires v.NarrowProduct? && v.x < |f.values| && IsPowerOfTwo(c + 1) && v.bits == TrailingOnes(c) && v.c == c
    requires Lookup(e, v.y) >= 1
    ensures RewriteValue(f, v, e) == BoolBit(Lookup(e, v.x) * Lookup(e, v.y) > c) <==> !Deviates(v, e)
  {
    hide Pow2, Wrap, BitOr, Overflows;
    var x, d, k := Lookup(e, v.x), Lookup(e, v.y), v.bits;
    PowerOfTwoOnes(c);
    NarrowOverflow(x, d, c, k);
    ThreeBits(x > c, d > c, Overflows(UMul, k, Wrap(k, x), Wrap(k, d)));
  }

  lemma ThreeBits(p: bool, q: bool, r: bool)
    ensures BitOr(BitOr(BoolBit(p), BoolBit(q)), BoolBit(r)) == BoolBit(p || q || r)
  {
    assert BitOr(0, 0) == 0 && BitOr(1, 0) == 1 && BitOr(0, 1) == 1;
    assert BitOr(1, 1) == 1;
  }

  lemma WithInverseMeaning(f: Func, pred: CmpOp, l: nat, r: nat, e: Env)
    requires Sized(f, e) && r < |f.values| && AllCompute(f, Division(f, r), e)
    requires f.IsInt(l, f.values[r].width) && MatchCmpWithInverse(f, pred, l, r).Rewritten?
    requires Lookup(e, Operand(MatchCmpWithInverse(f, pred, l, r).r).1) != 0
    ensures var v := MatchCmpWithInverse(f, pred, l, r).r; var n := f.values[l].width;
            && Operand(v).0 == l
            && (RewriteValue(f, v, e) == BoolBit(CmpHolds(pred, n, Lookup(e, l), Lookup(e, r))) <==> !Deviates(v, e))
  {
    hide AllCompute, Pow2;
    var n := f.values[l].width;
    if MatchCmp(f, pred, l, r).Rewritten? {
      MatchCmpMeaning(f, pred, l, r, e);
    } else {
      MatchCmpMeaning(f, Inverse(pred), l, r, e);
      InversePredicate(pred, n, Lookup(e, l), Lookup(e, r));
      OneBitRewrite(f, MatchCmp(f, Inverse(pred), l, r).r, e);
      assert BitXor(0, 1) == 1 && BitXor(1, 1) == 0;
    }
  }

  /** The values that the replacement of a comparison relies on. */
  function Support(f: RawFunc, v: nat): set<nat> {
    if v < |f.values| && f.values[v].def.ICmp? then Division(f, f.values[v].def.a) + Division(f, f.values[v].def.b)
    else {}
  }

  /** The value that replaces a comparison is the comparison's value, through inverted and swapped
      matches alike, if and only if it is not the deviating shape. */
  lemma ReplacementMeaning(f: Func, v: nat, e: Env)
    requires Sized(f, e) && v < |f.values| && f.values[v].def.ICmp? && AllCompute(f, Support(f, v), e)
    requires Replacement(f, v).Rewritten? && Lookup(e, Operand(Replacement(f, v).r).1) != 0
    ensures Operand(Replacement(f, v).r).0 < |f.values|
    ensures Lookup(e, v) == RewriteValue(f, Replacement(f, v).r, e) ==>
              (Computes(f, v, e) <==> !Deviates(Replacement(f, v).r, e))
    ensures Computes(f, v, e) ==>
              (Lookup(e, v) == RewriteValue(f, Replacement(f, v).r, e) <==> !Deviates(Replacement(f, v).r, e))
  {
    hide MatchCmpWithInverse, Pow2, RewriteValue, Deviates;
    Typing(f, v);
    var ICmp(pred, l, r) := f.values[v].def;
    var n := f.values[l].width;
    if !MatchCmpWithInverse(f, pred, l, r).NoMatch? {
      WithInverseMeaning(f, pred, l, r, e);
    } else {
      InversePredicate(pred, n, Lookup(e, l), Lookup(e, r));
      WithInverseMeaning(f, Swapped(pred), r, l, e);
    }
  }

  lemma OneBitRewrite(f: RawFunc, v: Rewrite, e: Env)
    requires Operand(v).0 < |f.values| && !v.Inverted?
    ensures RewriteValue(f, v, e) < 2
  {
    if v.NarrowProduct? {
      ThreeBits(Lookup(e, v.x) > v.c, Lookup(e, v.y) > v.c,
                Overflows(UMul, v.bits, Wrap(v.bits, Lookup(e, v.x)), Wrap(v.bits, Lookup(e, v.y))));
    }
  }

  // ----- The pass

  /** What the pass makes of one instruction. */
  function Replacement(f: RawFunc, v: nat): MatchResult
    requires v < |f.values|
  {
    if f.values[v].def.ICmp? && f.values[v].def.a < |f.values| && f.values[v].def.b < |f.values|
    then MatchCmpWithSwappedAndInverse(f, f.values[v].def.pred, f.values[v].def.a, f.values[v].def.b)
    else NoMatch
  }

  /** q is (x * y) / y or (y * x) / y. */
  ghost predicate IsQuotientOf(f: RawFunc, q: nat, x: nat) {
    exists m: nat, y: nat :: m < |f.values| && q < |f.values| && f.values[q].def == Binary(Plain(UDiv), m, y)
      && (f.values[m].def == Binary(Plain(Mul), x, y) || f.values[m].def == Binary(Plain(Mul), y, x))
  }

  /** q is c / y. */
  ghost predicate IsConstQuotient(f: RawFunc, q: nat) {
    exists m: nat, y: nat :: m < |f.values| && q < |f.values| && f.values[q].def == Binary(Plain(UDiv), m, y)
      && f.values[m].def.ConstInt?
  }

  /** Which comparisons are matched: "x == x * y / y" and "!=" in either order, "x > c / y" and "<=", and
      "c / y < x" and ">=". */
  lemma MatchesExactly(f: Func, v: nat)
    requires v < |f.values|
    ensures Replacement(f, v) != NoMatch <==>
              && f.values[v].def.ICmp?
              && var ICmp(pred, a, b) := f.values[v].def;
                 || ((pred == Eq || pred == Ne) && (IsQuotientOf(f, b, a) || IsQuotientOf(f, a, b)))
                 || ((pred == Ugt || pred == Ule) && IsConstQuotient(f, b))
                 || ((pred == Ult || pred == Uge) && IsConstQuotient(f, a))
  {
    hide MatchCmp, IsQuotientOf, IsConstQuotient;
    if f.values[v].def.ICmp? {
      Typing(f, v);
      var ICmp(_, a, b) := f.values[v].def;
      forall pred
        ensures MatchCmp(f, pred, a, b) != NoMatch <==>
                  (pred == Ne && IsQuotientOf(f, b, a)) || (pred == Ugt && IsConstQuotient(f, b))
        ensures MatchCmp(f, pred, b, a) != NoMatch <==>
                  (pred == Ne && IsQuotientOf(f, a, b)) || (pred == Ugt && IsConstQuotient(f, a))
      {
        DirectExactly(f, pred, a, b);
        DirectExactly(f, pred, b, a);
      }
    }
  }

  lemma DirectExactly(f: Func, pred: CmpOp, l: nat, r: nat)
    requires l < |f.values| && r < |f.values|
    ensures MatchCmp(f, pred, l, r) != NoMatch <==>
              (pred == Ne && IsQuotientOf(f, r, l)) || (pred == Ugt && IsConstQuotient(f, r))
  {
    hide TrailingOnes, IsPowerOfTwo, Pow2;
    Typing(f, r);
    if IsBinary(f, r, UDiv) {
      var Binary(_, m, y) := f.values[r].def;
      assert IsConstQuotient(f, r) <==> f.values[m].def.ConstInt?;
    }
  }

  /** runOnFunction: all uses of a matched comparison are replaced, in place; slots[v] says what the
      uses of v now read. */
  method RunOnFunction(f: Func, slots: array<MatchResult>) returns (changed: bool)
    requires slots.Length == |f.values| && forall v :: 0 <= v < slots.Length ==> slots[v] == NoMatch
    modifies slots
    ensures forall v :: 0 <= v < slots.Length ==> slots[v] == Replacement(f, v)
    ensures changed <==> exists v :: 0 <= v < slots.Length && slots[v] != NoMatch
  {
    hide MatchCmpWithSwappedAndInverse, Pow2;
    changed := false;
    var i := 0;
    while i < slots.Length
      invariant 0 <= i <= slots.Length
      invariant forall v :: 0 <= v < i ==> slots[v] == Replacement(f, v)
      invariant forall v :: i <= v < slots.Length ==> slots[v] == NoMatch
      invariant changed <==> exists v :: 0 <= v < i && slots[v] != NoMatch
    {
      Typing(f, i);
      if f.values[i].def.ICmp? {
        var ICmp(pred, l, r) := f.values[i].def;
        var v := MatchCmpWithSwappedAndInverse(f, pred, l, r);
        if v != NoMatch {
          slots[i] := v;
          changed := true;
        }
      }
      i := i + 1;
    }
  }

  // ----- The rewritten function

  /** What the uses of each value read once the pass has run. */
  ghost function After(f: Func, slots: seq<MatchResult>): Replacements {
    (v: nat, e: Env) => v < |f.values| &&
      if v < |slots| && slots[v].Rewritten? && Operand(slots[v].r).0 < |f.values|
      then Lookup(e, v) == RewriteValue(f, slots[v].r, e) else Computes(f, v, e)
  }

  /** What RunOnFunction leaves, when no type of zero bits was asked for. */
  predicate Rewrote(f: Func, slots: seq<MatchResult>) {
    |slots| == |f.values| && forall v :: 0 <= v < |slots| ==> slots[v] == Replacement(f, v) && !slots[v].InvalidType?
  }

  function Replaced(f: Func): (vs: set<nat>)
    ensures forall v: nat :: v in vs <==> v < |f.values| && Replacement(f, v).Rewritten?
  {
    set v: nat | v in Numbers(|f.values|) && Replacement(f, v).Rewritten?
  }

  /** The divisors of the matched comparisons are not zero when these are executed. */
  ghost predicate NonzeroDivisors(f: Func, run: seq<State>) {
    forall i: nat, v: nat :: i < |run| && v in Replaced(f) && Executed(f, run[i], v) ==>
      Lookup(run[i].env, Operand(Replacement(f, v).r).1) != 0
  }

  ghost predicate NeverDeviates(f: Func, run: seq<State>) {
    forall i: nat, v: nat :: i < |run| && v in Replaced(f) && Executed(f, run[i], v) ==>
      !Deviates(Replacement(f, v).r, run[i].env)
  }

  lemma MatchesSupported(f: Func)
    ensures Supported(f, Replaced(f), v => Support(f, v))
  {
    hide f.Dominates, MatchCmpWithSwappedAndInverse;
    forall v: nat, u: nat, b: nat | v in Replaced(f) && u in Support(f, v) && f.Available(v, b)
      ensures u !in Replaced(f) && f.Available(u, b)
    {
      var ICmp(_, l, r) := f.values[v].def;
      DivisionAvailable(f, v, if u in Division(f, l) then l else r, u, b);
    }
  }

  lemma DivisionAvailable(f: Func, v: nat, r: nat, u: nat, b: nat)
    requires f.Available(v, b) && r in f.Uses(v) && u in Division(f, r)
    ensures u < |f.values| && !f.values[u].def.ICmp? && f.Available(u, b)
  {
    hide f.Dominates;
    UseAvailable(f, v, r, b);
    if u != r { UseAvailable(f, r, u, b); }
  }

  /** The rewritten function has exactly the executions of the original one in which no match
      deviates, as long as it divides by nothing that is zero. */
  lemma PassKeepsExecutions(f: Func, slots: seq<MatchResult>, run: seq<State>)
    requires Rewrote(f, slots) && NonzeroDivisors(f, run)
    ensures NeverDeviates(f, run) ==> (ExecutionAfter(f, After(f, slots), run) <==> Execution(f, run))
    ensures ExecutionAfter(f, After(f, slots), run) && Execution(f, run) ==> NeverDeviates(f, run)
  {
    hide f.Available, RewriteValue, Deviates, Computes, MatchCmpWithSwappedAndInverse;
    var after := After(f, slots);
    MatchesSupported(f);
    if NeverDeviates(f, run) {
      forall i: nat, v: nat | i < |run| && v in Replaced(f) && Executed(f, run[i], v)
        ensures AgreesAt(f, after, Support(f, v), v, run[i].env)
      {
        if AllCompute(f, Support(f, v), run[i].env) && ValidEnv(f, run[i].env) { ReplacementMeaning(f, v, run[i].env); }
      }
      SameExecutions(f, Replaced(f), v => Support(f, v), after, run);
    }
    if ExecutionAfter(f, after, run) && Execution(f, run) {
      forall i: nat, v: nat | i < |run| && v in Replaced(f) && Executed(f, run[i], v)
        ensures !Deviates(Replacement(f, v).r, run[i].env)
      {
        ExecutedComputes(f, Replaced(f), v => Support(f, v), run, i, v);
        ReplacementObeyed(f, after, run, i, v);
        ReplacementMeaning(f, v, run[i].env);
      }
    }
  }

  // ----- A deviating execution: "x > 15 / y" in 8 bits, at x = 0 and y = 16

  function Int8(d: Def, w: nat): Value { Value(d, w, true, GLOBAL, []) }

  const EXAMPLE: RawFunc := Func(
    [Int8(Argument, 8), Int8(Argument, 8), Int8(ConstInt(15), 8), Int8(Binary(Plain(UDiv), 2, 1), 8),
     Int8(ICmp(Ugt, 0, 3), 1)],
    [Exit], [[]], {}, 64)

  const EXAMPLE_ENV: Env := [0, 16, 15, 0, 0]

  lemma EightBits()
    ensures Pow2(1) == 2 && Pow2(4) == 16 && Pow2(8) == 256
  {}

  lemma ExampleValid()
    ensures EXAMPLE.Valid()
  {
    hide Pow2;
    EightBits();
    forall v: nat | v < |EXAMPLE.values| ensures EXAMPLE.ValidValue(v) {
      assert v == 0 || v == 1 || v == 2 || v == 3 || v == 4;
    }
    assert EXAMPLE.ValidTerm(0);
  }

  /** Every value of the example has its width and is what its operands give. */
  lemma ExampleComputes(v: nat)
    requires v < 5
    ensures EXAMPLE.Valid() && Computes(EXAMPLE, v, EXAMPLE_ENV)
    ensures Lookup(EXAMPLE_ENV, v) < Pow2(EXAMPLE.values[v].width)
  {
    hide Pow2;
    ExampleValid();
    EightBits();
    assert v == 0 || v == 1 || v == 2 || v == 3 || v == 4;
  }

  lemma ExampleExecutes()
    ensures EXAMPLE.Valid() && Execution(EXAMPLE, [State(0, EXAMPLE_ENV)])
  {
    hide Pow2, Computes;
    ExampleValid();
    forall v: nat | v < 5
      ensures Lookup(EXAMPLE_ENV, v) < Pow2(EXAMPLE.values[v].width) && Computes(EXAMPLE, v, EXAMPLE_ENV)
    {
      ExampleComputes(v);
    }
  }

  lemma ExampleReplacement()
    ensures Replacement(EXAMPLE, 4) == Rewritten(NarrowProduct(0, 1, 15, 4))
  {
    EightBits();
    assert IsPowerOfTwo(2) && IsPowerOfTwo(4) && IsPowerOfTwo(8);
    assert TrailingOnes(3) == 2 && TrailingOnes(15) == 4;
  }

  /** The comparison is false and what replaces it is true: the rewritten function loses this
      execution. */
  lemma DeviationExample()
    ensures EXAMPLE.Valid() && Execution(EXAMPLE, [State(0, EXAMPLE_ENV)])
    ensures NonzeroDivisors(EXAMPLE, [State(0, EXAMPLE_ENV)]) && !NeverDeviates(EXAMPLE, [State(0, EXAMPLE_ENV)])
    ensures Lookup(EXAMPLE_ENV, 4) == 0 && RewriteValue(EXAMPLE, NarrowProduct(0, 1, 15, 4), EXAMPLE_ENV) == 1
    ensures forall slots :: Rewrote(EXAMPLE, slots) ==>
              !ExecutionAfter(EXAMPLE, After(EXAMPLE, slots), [State(0, EXAMPLE_ENV)])
  {
    hide Pow2, MatchCmpWithSwappedAndInverse, After, ExecutionAfter, Execution;
    ExampleExecutes();
    ExampleReplacement();
    var run := [State(0, EXAMPLE_ENV)];
    assert forall v: nat :: v in Replaced(EXAMPLE) ==> v == 4;
    assert Executed(EXAMPLE, run[0], 4) && 4 in Replaced(EXAMPLE);
    ThreeBits(false, true, Overflows(UMul, 4, Wrap(4, 0), Wrap(4, 16)));
    forall slots | Rewrote(EXAMPLE, slots) ensures !ExecutionAfter(EXAMPLE, After(EXAMPLE, slots), run) {
      PassKeepsExecutions(EXAMPLE, slots, run);
    }
  }
}
