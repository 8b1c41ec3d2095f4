/** The formula ValueGen builds for a value, and its meaning: evaluated on the environment of a
    run it is the value the run computed. */
module ValueEncoding {
  import opened BitVec
  import opened Terms
  import opened Solver
  import opened SSA

  // ----- The formulas

  predicate Encodable(f: Func, v: nat) {
    v < |f.values| && f.values[v].analyzable
  }

  function Fresh(f: Func, v: nat): Term
    requires v < |f.values|
  {
    Var(f.values[v].width, v)
  }

  function ShiftOp(op: BinOp): BvOp
    requires !op.Plain?
  {
    match op case Shl => Sll case LShr => Srl case AShr => Sra
  }

  function WrappingOp(op: OvfOp): BvOp {
    match op
    case SAdd => Arith(Add)
    case UAdd => Arith(Add)
    case SSub => Arith(Sub)
    case USub => Arith(Sub)
    case SMul => Arith(Mul)
    case UMul => Arith(Mul)
  }

  /** Bring a GEP index to pointer size. */
  function Resize(t: Term, p: nat): (r: Term)
    requires p >= 1
    ensures Width(r) == p
  {
    if Width(t) < p then Sext(t, p - Width(t)) else if Width(t) > p then Slice(t, p - 1, 0) else t
  }

  lemma IntrinsicTyped(f: Func, v: nat, op: OvfOp, a: nat, b: nat)
    requires v < |f.values| && f.values[v].def == WithOverflow(op, a, b)
    ensures a < v && b < v && Encodable(f, a) && Encodable(f, b) && f.values[a].width == f.values[b].width
  {
    Typing(f, v);
  }

  ghost function Enc(f: Func, v: nat): (t: Term)
    requires Encodable(f, v)
    ensures Width(t) == f.values[v].width
    decreases v, 1, 0
  {
    Typing(f, v);
    var w := f.values[v].width;
    match f.values[v].def
    case ConstInt(c) => Const(w, c)
    case NullPtr => Const(w, 0)
    case Trunc(a) => Slice(Enc(f, a), w - 1, 0)
    case ZExt(a) => Uext(Enc(f, a), w - f.values[a].width)
    case SExt(a) => Sext(Enc(f, a), w - f.values[a].width)
    case BitCast(a) => if f.values[a].analyzable then Enc(f, a) else Fresh(f, v)
    case PtrToInt(a) =>
      var p := f.values[a].width;
      if w > p then Uext(Enc(f, a), w - p) else if w < p then Slice(Enc(f, a), w - 1, 0) else Enc(f, a)
    case Binary(Plain(op), a, b) => Bin(Arith(op), Enc(f, a), Enc(f, b))
    case Binary(op, a, b) => ShiftTerm(ShiftOp(op), Enc(f, a), Enc(f, b))
    case ICmp(op, a, b) => Cmp(op, Enc(f, a), Enc(f, b))
    case Select(c, a, b) => Ite(Enc(f, c), Enc(f, a), Enc(f, b))
    case ExtractValue(agg, k) =>
      if f.values[agg].def.WithOverflow? then
        var WithOverflow(op, a, b) := f.values[agg].def;
        IntrinsicTyped(f, agg, op, a, b);
        if k == 0 then Bin(WrappingOp(op), Enc(f, a), Enc(f, b)) else Ovf(op, Enc(f, a), Enc(f, b))
      else Fresh(f, v)
    case Gep(base, idxs) =>
      var offset := GepTerm(f, v, |idxs|);
      var constant := GepConst(f, idxs, |idxs|);
      if constant == 0 then offset else Bin(Arith(Add), offset, Const(f.ptrSize, constant))
    case WithOverflow(_, _, _) => assert false; True
    case _ => Fresh(f, v)
  }

  predicate IsConstIndex(f: Func, i: Index) {
    i.v < |f.values| && f.values[i.v].def.ConstInt?
  }

  /** The symbolic part of a GEP after k indices: the base and the scaled variable indices. */
  ghost function GepTerm(f: Func, v: nat, k: nat): (t: Term)
    requires Encodable(f, v) && f.values[v].def.Gep? && k <= |f.values[v].def.indices|
    ensures Width(t) == f.ptrSize
    decreases v, 0, k
  {
    Typing(f, v);
    var Gep(base, idxs) := f.values[v].def;
    if k == 0 then Enc(f, base) else
      var prev := GepTerm(f, v, k - 1);
      assert f.ValidIndex(idxs[k - 1]) && idxs[k - 1].v in f.Uses(v);
      if IsConstIndex(f, idxs[k - 1]) then prev
      else Bin(Arith(Add), prev, ScaledIndex(f, Enc(f, idxs[k - 1].v), idxs[k - 1]))
  }

  function ScaledIndex(f: Func, index: Term, i: Index): (t: Term)
    requires f.ptrSize >= 1 && i.Element?
    ensures Width(t) == f.ptrSize
  {
    Bin(Arith(Mul), Resize(index, f.ptrSize), Const(f.ptrSize, Wrap(f.ptrSize, i.size)))
  }

  /** The constant part after k indices. */
  function GepConst(f: Func, idxs: seq<Index>, k: nat): (c: nat)
    requires k <= |idxs| && forall i :: 0 <= i < |idxs| ==> f.ValidIndex(idxs[i])
    ensures c < Pow2(f.ptrSize)
  {
    if k == 0 then 0 else
      var prev := GepConst(f, idxs, k - 1);
      if IsConstIndex(f, idxs[k - 1]) then AddConstIndex(f, prev, idxs[k - 1]) else prev
  }

  /** Fold one constant index into the constant offset; zero is skipped. */
  function AddConstIndex(f: Func, prev: nat, i: Index): (c: nat)
    requires IsConstIndex(f, i) && f.ValidIndex(i) && prev < Pow2(f.ptrSize)
    ensures c < Pow2(f.ptrSize)
  {
    var c := f.values[i.v].def.val;
    if c == 0 then prev else
      match i
      case Field(_, layout) => Wrap(f.ptrSize, prev + layout[c])
      case Element(_, size) =>
        Wrap(f.ptrSize, prev + Wrap(f.ptrSize,
          Wrap(f.ptrSize, size) * SextOrTrunc(f.values[i.v].width, f.ptrSize, c)))
  }

  function SextOrTrunc(w: nat, p: nat, c: nat): nat {
    if w < p then Wrap(p, Signed(w, c)) else Wrap(p, c)
  }

  // ----- Shape: well-typed, and about the leaves that precede the value

  /** The values that stay variables: arguments, PHIs, loads, calls, what else is not computed from
      other values, and what is computed from something that is not analysable. */
  predicate IsLeaf(f: Func, u: nat) {
    u < |f.values| &&
    match f.values[u].def
    case Argument => true
    case Phi(_) => true
    case Opaque => true
    case Undef => true
    case OtherConst => true
    case BitCast(a) => !Encodable(f, a)
    case ExtractValue(agg, _) => agg < |f.values| && !f.values[agg].def.WithOverflow?
    case _ => false
  }

  /** A formula over variables that are encodable leaves of blocks up to a bound. */
  predicate Over(f: Func, t: Term, home: int) {
    forall u :: u in Vars(t) ==>
      Encodable(f, u.1) && IsLeaf(f, u.1) && f.values[u.1].width == u.0 && f.values[u.1].home <= home
  }

  lemma OverFrame(f: Func, t: Term, home: int, e: Env, e': Env)
    requires Over(f, t, home)
    requires forall u :: 0 <= u < |f.values| && IsLeaf(f, u) && f.values[u].home <= home ==>
               Lookup(e, u) == Lookup(e', u)
    ensures Eval(t, e) == Eval(t, e')
  {
    EvalFrame(t, e, e');
  }

  predicate Shaped(f: Func, t: Term, home: int) {
    WellTyped(t) && Over(f, t, home)
  }

  lemma ShapedNode(f: Func, t: Term, home: int)
    requires !Aborts(t) && !t.Var? && forall x :: x in Operands(t) ==> Shaped(f, x, home)
    ensures Shaped(f, t, home)
  {
    match t {
      case Ite(c, x, y) => assert c in Operands(t) && x in Operands(t) && y in Operands(t);
      case Bin(_, x, y) => assert x in Operands(t) && y in Operands(t);
      case Cmp(_, x, y) => assert x in Operands(t) && y in Operands(t);
      case Ovf(_, x, y) => assert x in Operands(t) && y in Operands(t);
      case Not(x) => assert x in Operands(t);
      case Uext(x, _) => assert x in Operands(t);
      case Sext(x, _) => assert x in Operands(t);
      case Slice(x, _, _) => assert x in Operands(t);
      case _ =>
    }
  }

  /** A shift by the low k bits of its amount can be built. */
  lemma LowShiftBuilds(op: BvOp, x: Term, e1: Term, k: nat)
    requires IsShift(op) && 1 <= k <= Width(e1) && Width(x) == Pow2(k)
    ensures var low := Slice(e1, k - 1, 0);
            && !Aborts(low) && Operands(low) == {e1}
            && !Aborts(Bin(op, x, low)) && Operands(Bin(op, x, low)) == {x, low}
  {
    hide Pow2;
    assert Width(Slice(e1, k - 1, 0)) == k && !op.Arith?;
  }

  lemma ShiftShaped(f: Func, op: BvOp, e0: Term, e1: Term, h: int)
    requires IsShift(op) && Width(e0) == Width(e1) >= 2 && Shaped(f, e0, h) && Shaped(f, e1, h)
    ensures Shaped(f, ShiftTerm(op, e0, e1), h)
  {
    hide Pow2, Shaped, Aborts, Operands, Width, CeilLog2, IsShift, ShiftTerm;
    var n := Width(e1);
    var k := CeilLog2(n);
    CeilLog2Small(n);
    ShiftTermIs(op, e0, e1);
    if Pow2(k) != n {
      var x := Uext(e0, Pow2(k) - n);
      WidenedBuilds(op, e0, e1, k, Pow2(k));
      ShapedNode(f, x, h);
      LowShiftShaped(f, op, x, e1, k, h);
      ShapedNode(f, ShiftTerm(op, e0, e1), h);
    } else {
      LowShiftShaped(f, op, e0, e1, k, h);
    }
  }

  lemma LowShiftShaped(f: Func, op: BvOp, x: Term, e1: Term, k: nat, h: int)
    requires IsShift(op) && 1 <= k <= Width(e1) && Width(x) == Pow2(k) && Shaped(f, x, h) && Shaped(f, e1, h)
    ensures Shaped(f, Bin(op, x, Slice(e1, k - 1, 0)), h)
  {
    hide Pow2, Shaped, Aborts, Operands, Width, IsShift;
    LowShiftBuilds(op, x, e1, k);
    ShapedNode(f, Slice(e1, k - 1, 0), h);
    ShapedNode(f, Bin(op, x, Slice(e1, k - 1, 0)), h);
  }

  lemma {:induction false} EncShaped(f: Func, v: nat)
    requires Encodable(f, v)
    ensures Shaped(f, Enc(f, v), f.values[v].home)
    decreases v, 1, 0
  {
    Typing(f, v);
    forall u | u in f.Uses(v) && Encodable(f, u)
      ensures u < v && Shaped(f, Enc(f, u), f.values[v].home)
    {
      OperandShaped(f, v, u);
    }
    var d, t, h := f.values[v].def, Enc(f, v), f.values[v].home;
    if d.Binary? && !d.bin.Plain? {
      ShiftShaped(f, ShiftOp(d.bin), Enc(f, d.a), Enc(f, d.b), h);
    } else if d.ExtractValue? && f.values[d.agg].def.WithOverflow? {
      PartShaped(f, v);
    } else if d.Gep? {
      AddressShaped(f, v);
    } else if !t.Var? && !d.BitCast? && (d.PtrToInt? ==> f.values[d.a].width != f.values[v].width) {
      ShapedNode(f, t, h);
    }
  }

  lemma {:induction false} PartShaped(f: Func, v: nat)
    requires Encodable(f, v) && f.values[v].def.ExtractValue? && f.values[v].def.agg < |f.values|
    requires f.values[f.values[v].def.agg].def.WithOverflow?
    ensures Shaped(f, Enc(f, v), f.values[v].home)
    decreases v, 0, 1
  {
    hide Shaped;
    var agg := f.values[v].def.agg;
    var WithOverflow(op, a, b) := f.values[agg].def;
    UsesBelow(f, v, agg);
    IntrinsicTyped(f, agg, op, a, b);
    UsesBelow(f, agg, a);
    UsesBelow(f, agg, b);
    OperandShaped(f, agg, a);
    OperandShaped(f, agg, b);
    var h := f.values[v].home;
    ShapedWider(f, Enc(f, a), f.values[agg].home, h);
    ShapedWider(f, Enc(f, b), f.values[agg].home, h);
    assert Operands(Enc(f, v)) == {Enc(f, a), Enc(f, b)};
    ShapedNode(f, Enc(f, v), h);
  }

  lemma ShapedWider(f: Func, t: Term, h: int, h': int)
    requires Shaped(f, t, h) && h <= h'
    ensures Shaped(f, t, h')
  {}

  lemma {:induction false} AddressShaped(f: Func, v: nat)
    requires Encodable(f, v) && f.values[v].def.Gep?
    ensures Shaped(f, Enc(f, v), f.values[v].home)
    decreases v, 0, |f.values[v].def.indices| + 2
  {
    hide Shaped;
    Typing(f, v);
    var idxs, t, h := f.values[v].def.indices, Enc(f, v), f.values[v].home;
    GepShaped(f, v, |idxs|);
    var offset, c := GepTerm(f, v, |idxs|), Const(f.ptrSize, GepConst(f, idxs, |idxs|));
    ShapedNode(f, c, h);
    if c.val != 0 {
      assert Operands(t) == {offset, c};
      ShapedNode(f, t, h);
    }
  }

  lemma {:induction false} OperandShaped(f: Func, v: nat, u: nat)
    requires v < |f.values| && u in f.Uses(v) && Encodable(f, u)
    ensures u < v && Shaped(f, Enc(f, u), f.values[v].home)
    decreases v, 0, 0
  {
    UsesBelow(f, v, u);
    EncShaped(f, u);
  }

  lemma {:induction false} GepShaped(f: Func, v: nat, k: nat)
    requires Encodable(f, v) && f.values[v].def.Gep? && k <= |f.values[v].def.indices|
    ensures Shaped(f, GepTerm(f, v, k), f.values[v].home)
    decreases v, 0, k + 1
  {
    Typing(f, v);
    var Gep(base, idxs) := f.values[v].def;
    var h := f.values[v].home;
    if k == 0 {
      OperandShaped(f, v, base);
    } else {
      GepShaped(f, v, k - 1);
      var i := idxs[k - 1];
      assert f.ValidIndex(i) && i.v in f.Uses(v);
      if IsConstIndex(f, i) {
        assert GepTerm(f, v, k) == GepTerm(f, v, k - 1);
      } else {
        OperandShaped(f, v, i.v);
        ScaledIndexShaped(f, Enc(f, i.v), i, h);
        ShapedNode(f, GepTerm(f, v, k), h);
      }
    }
  }

  lemma ScaledIndexShaped(f: Func, t: Term, i: Index, h: int)
    requires f.ptrSize >= 1 && i.Element? && Shaped(f, t, h)
    ensures Shaped(f, ScaledIndex(f, t, i), h)
  {
    var size := Const(f.ptrSize, Wrap(f.ptrSize, i.size));
    var index := Resize(t, f.ptrSize);
    ShapedNode(f, size, h);
    if index != t {
      ShapedNode(f, index, h);
    }
    ShapedNode(f, ScaledIndex(f, t, i), h);
  }

  // ----- Meaning

  predicate IsAshr(f: Func, v: nat) {
    v < |f.values| && f.values[v].def.Binary? && f.values[v].def.bin.AShr?
  }

  /** The encoding of an arithmetic right shift has the right sign: at a power-of-two width, for a
      number that is not negative, or if nothing is shifted. */
  predicate ShiftAgrees(f: Func, v: nat, e: Env) {
    IsAshr(f, v) ==>
      var w, x := f.values[v].width, Lookup(e, f.values[v].def.a);
      w >= 1 && (IsPow2Width(w) || 2 * x < Pow2(w) || Lookup(e, f.values[v].def.b) % Pow2(CeilLog2(w)) == 0)
  }

  /** That holds for all shifts that are available in block b. */
  ghost predicate ShiftsAgree(f: Func, b: nat, e: Env) {
    forall v: nat :: f.Available(v, b) ==> ShiftAgrees(f, v, e)
  }

  /** All arithmetic right shifts have widths that are powers of two. */
  predicate SoundShifts(f: Func) {
    forall v: nat :: v < |f.values| && IsAshr(f, v) ==> f.values[v].width >= 1 && IsPow2Width(f.values[v].width)
  }

  lemma SoundShiftsAgree(f: Func, b: nat, e: Env)
    requires SoundShifts(f)
    ensures ShiftsAgree(f, b, e)
  {}

  /** The formula of a value, on the environment of a run, is the value of the run. */
  lemma {:induction false} EncMeaning(f: Func, v: nat, b: nat, e: Env)
    requires ShiftsAgree(f, b, e) && Encodable(f, v)
    requires ValidEnv(f, e) && Consistent(f, b, e) && f.Available(v, b)
    ensures Eval(Enc(f, v), e) == Lookup(e, v)
    decreases v, 1, 0
  {
    Typing(f, v);
    match f.values[v].def {
      case Trunc(_) => CastMeaning(f, v, b, e);
      case ZExt(_) => CastMeaning(f, v, b, e);
      case SExt(_) => CastMeaning(f, v, b, e);
      case BitCast(_) => CastMeaning(f, v, b, e);
      case PtrToInt(_) => CastMeaning(f, v, b, e);
      case Binary(_, _, _) => OperationMeaning(f, v, b, e);
      case ICmp(_, _, _) => OperationMeaning(f, v, b, e);
      case Select(_, _, _) => OperationMeaning(f, v, b, e);
      case ExtractValue(agg, _) =>
        if f.values[agg].def.WithOverflow? {
          ExtractMeaning(f, v, b, e);
        }
      case Gep(_, idxs) => GepMeaning(f, v, |idxs|, b, e);
      case ConstInt(_) => assert Computes(f, v, e);
      case NullPtr => assert Computes(f, v, e);
      case _ =>
    }
  }

  /** Nothing but the leaves is needed for that: an assignment that gives them the values of the run
      gives the formula the value of the run. */
  lemma LeavesDecide(f: Func, v: nat, b: nat, e: Env, e': Env)
    requires ShiftsAgree(f, b, e) && Encodable(f, v)
    requires ValidEnv(f, e) && Consistent(f, b, e) && f.Available(v, b)
    requires forall u: nat :: IsLeaf(f, u) ==> Lookup(e', u) == Lookup(e, u)
    ensures Eval(Enc(f, v), e') == Lookup(e, v)
  {
    hide Enc, IsLeaf;
    EncMeaning(f, v, b, e);
    EncShaped(f, v);
    OverFrame(f, Enc(f, v), f.values[v].home, e, e');
  }

  lemma {:induction false} CastMeaning(f: Func, v: nat, b: nat, e: Env)
    requires ShiftsAgree(f, b, e) && ValidEnv(f, e) && Consistent(f, b, e) && Encodable(f, v)
    requires f.Available(v, b) && var d := f.values[v].def;
             d.Trunc? || d.ZExt? || d.SExt? || d.BitCast? || d.PtrToInt?
    ensures Eval(Enc(f, v), e) == Lookup(e, v)
    decreases v, 0, 1
  {
    Typing(f, v);
    assert Computes(f, v, e);
    var a := f.values[v].def.a;
    if f.values[a].analyzable {
      OperandMeaning(f, v, a, b, e);
      DivByOne(Lookup(e, a));
      PtrToIntMeaning(f.values[a].width, f.values[v].width, Lookup(e, a));
    }
  }

  lemma {:induction false} OperationMeaning(f: Func, v: nat, b: nat, e: Env)
    requires ShiftsAgree(f, b, e) && ValidEnv(f, e) && Consistent(f, b, e) && Encodable(f, v)
    requires f.Available(v, b) && var d := f.values[v].def; d.Binary? || d.ICmp? || d.Select?
    ensures Eval(Enc(f, v), e) == Lookup(e, v)
    decreases v, 0, 1
  {
    hide Pow2, ShiftTerm, ShiftAgrees, CeilLog2, IsPow2Width;
    Typing(f, v);
    assert Computes(f, v, e) && ShiftAgrees(f, v, e);
    var d := f.values[v].def;
    OperandMeaning(f, v, d.a, b, e);
    OperandMeaning(f, v, d.b, b, e);
    if d.Select? {
      OperandMeaning(f, v, d.c, b, e);
    } else if d.Binary? && !d.bin.Plain? {
      ShiftEncodingExact(f, v, e);
    }
  }

  /** Given the right operands, the formula of a shift has its value if and only if the shift is not
      one that loses its sign. */
  lemma ShiftEncodingExact(f: Func, v: nat, e: Env)
    requires Encodable(f, v) && f.values[v].def.Binary? && !f.values[v].def.bin.Plain? && Computes(f, v, e)
    requires var d := f.values[v].def;
             && Encodable(f, d.a) && Eval(Enc(f, d.a), e) == Lookup(e, d.a) < Pow2(f.values[v].width)
             && Encodable(f, d.b) && Eval(Enc(f, d.b), e) == Lookup(e, d.b) < Pow2(f.values[v].width)
    ensures Eval(Enc(f, v), e) == Lookup(e, v) <==> ShiftAgrees(f, v, e)
  {
    hide Pow2, ShiftTerm, ShlBits, LshrBits, AshrBits, CeilLog2, IsPow2Width;
    Typing(f, v);
    var d, n := f.values[v].def, f.values[v].width;
    ShiftMeaning(ShiftOp(d.bin), Enc(f, d.a), Enc(f, d.b), e);
    AshrIsLshr(n, Lookup(e, d.a), Lookup(e, d.b) % Pow2(CeilLog2(n)));
  }

  lemma {:induction false} OperandMeaning(f: Func, v: nat, u: nat, b: nat, e: Env)
    requires ShiftsAgree(f, b, e) && ValidEnv(f, e) && Consistent(f, b, e)
    requires f.Available(v, b) && u in f.Uses(v) && Encodable(f, u)
    ensures u < v && Eval(Enc(f, u), e) == Lookup(e, u) < Pow2(f.values[u].width)
    decreases v, 0, 0
  {
    UseAvailable(f, v, u, b);
    EncMeaning(f, u, b, e);
  }

  lemma PtrToIntMeaning(p: nat, w: nat, x: nat)
    requires x < Pow2(p)
    ensures w >= p ==> Wrap(w, x) == x
  {
    if w >= p {
      Pow2Mono(p, w);
      WrapId(w, x);
    }
  }

  /** Extracting from an overflow intrinsic: its own operands give the result and the flag. */
  lemma {:induction false} ExtractMeaning(f: Func, v: nat, b: nat, e: Env)
    requires ShiftsAgree(f, b, e) && ValidEnv(f, e) && Consistent(f, b, e) && Encodable(f, v)
    requires f.Available(v, b) && f.values[v].def.ExtractValue?
    requires f.values[v].def.agg < |f.values| && f.values[f.values[v].def.agg].def.WithOverflow?
    ensures Eval(Enc(f, v), e) == Lookup(e, v)
    decreases v, 0, 0
  {
    hide Overflows, Exact, Pow2;
    var ExtractValue(agg, k) := f.values[v].def;
    Typing(f, v);
    UseAvailable(f, v, agg, b);
    Typing(f, agg);
    var WithOverflow(op, x, y) := f.values[agg].def;
    OperandMeaning(f, agg, x, b, e);
    OperandMeaning(f, agg, y, b, e);
    assert Computes(f, agg, e) && Computes(f, v, e);
    var n := f.values[x].width;
    var r := Wrap(n, Exact(op, n, Lookup(e, x), Lookup(e, y)));
    var bit := BoolBit(Overflows(op, n, Lookup(e, x), Lookup(e, y)));
    ExactWraps(op, n, Lookup(e, x), Lookup(e, y));
    DivModUnique(Lookup(e, agg), Pow2(n), bit, r);
  }

  /** The split accumulation agrees with the plain sum, modulo the pointer size, at every index. */
  lemma {:induction false} GepSplit(f: Func, v: nat, k: nat, b: nat, e: Env)
    requires ShiftsAgree(f, b, e) && ValidEnv(f, e) && Consistent(f, b, e) && Encodable(f, v)
    requires f.Available(v, b) && f.values[v].def.Gep? && k <= |f.values[v].def.indices|
    requires f.WellTypedDef(v)
    ensures var Gep(base, idxs) := f.values[v].def;
            Wrap(f.ptrSize, Eval(GepTerm(f, v, k), e) + GepConst(f, idxs, k))
            == Wrap(f.ptrSize, GepSum(f, base, idxs, k, e))
    decreases v, 0, k + 1
  {
    hide IndexValue, ScaledIndex, AddConstIndex, Enc, Eval, Wrap, Consistent;
    var Gep(base, idxs) := f.values[v].def;
    if k == 0 {
      OperandMeaning(f, v, base, b, e);
    } else {
      GepSplit(f, v, k - 1, b, e);
      var i := idxs[k - 1];
      assert f.ValidIndex(i) && i.v in f.Uses(v);
      OperandMeaning(f, v, i.v, b, e);
      UseAvailable(f, v, i.v, b);
      ConstValue(f, i.v, b, e);
      GepTermStep(f, v, k, e);
      var s, c := Eval(GepTerm(f, v, k - 1), e), GepConst(f, idxs, k - 1);
      if IsConstIndex(f, i) {
        ConstIndexStep(f, s, c, GepSum(f, base, idxs, k - 1, e), i, e);
      } else {
        ScaledIndexStep(f, s, c, GepSum(f, base, idxs, k - 1, e), i, Enc(f, i.v), e);
      }
    }
  }

  lemma GepTermStep(f: Func, v: nat, k: nat, e: Env)
    requires Encodable(f, v) && f.values[v].def.Gep? && 0 < k <= |f.values[v].def.indices|
    requires f.WellTypedDef(v)
    ensures var Gep(base, idxs) := f.values[v].def;
            var i, s := idxs[k - 1], Eval(GepTerm(f, v, k - 1), e);
            && i.v < v && Encodable(f, i.v)
            && GepSum(f, base, idxs, k, e) == GepSum(f, base, idxs, k - 1, e) + IndexValue(f, i, e)
            && if IsConstIndex(f, i) then
                 && Eval(GepTerm(f, v, k), e) == s
                 && GepConst(f, idxs, k) == AddConstIndex(f, GepConst(f, idxs, k - 1), i)
               else
                 && Eval(GepTerm(f, v, k), e) == Wrap(f.ptrSize, s + Eval(ScaledIndex(f, Enc(f, i.v), i), e))
                 && GepConst(f, idxs, k) == GepConst(f, idxs, k - 1)
  {
    var i := f.values[v].def.indices[k - 1];
    assert f.ValidIndex(i);
    if IsConstIndex(f, i) {
      assert GepTerm(f, v, k) == GepTerm(f, v, k - 1);
    }
  }

  /** What one index adds to the exact sum. */
  function IndexValue(f: Func, i: Index, e: Env): int
    requires f.ValidIndex(i)
  {
    match i
    case Field(v, layout) => layout[f.values[v].def.val]
    case Element(v, size) => Signed(f.values[v].width, Lookup(e, v)) * size
  }

  /** A constant index adds its value to the constant part ... */
  lemma ConstIndexStep(f: Func, s: nat, c: nat, total: int, i: Index, e: Env)
    requires f.ValidIndex(i) && c < Pow2(f.ptrSize) && IsConstIndex(f, i)
    requires Wrap(f.ptrSize, s + c) == Wrap(f.ptrSize, total)
    requires Lookup(e, i.v) == f.values[i.v].def.val < Pow2(f.values[i.v].width)
    ensures Wrap(f.ptrSize, s + AddConstIndex(f, c, i)) == Wrap(f.ptrSize, total + IndexValue(f, i, e))
  {
    hide Wrap, AddConstIndex;
    var p, x := f.ptrSize, IndexValue(f, i, e);
    ConstIndexMeaning(f, c, i);
    WrapAdd(p, c + x, s);
    WrapSum(p, s + c, total, x, x);
  }

  /** ... and a variable index to the formula. */
  lemma ScaledIndexStep(f: Func, s: nat, c: nat, total: int, i: Index, index: Term, e: Env)
    requires f.ValidIndex(i) && i.Element?
    requires Wrap(f.ptrSize, s + c) == Wrap(f.ptrSize, total)
    requires Width(index) == f.values[i.v].width && Eval(index, e) == Lookup(e, i.v) < Pow2(Width(index))
    ensures Wrap(f.ptrSize, Wrap(f.ptrSize, s + Eval(ScaledIndex(f, index, i), e)) + c)
            == Wrap(f.ptrSize, total + IndexValue(f, i, e))
  {
    hide Wrap, ScaledIndex;
    var p, x := f.ptrSize, IndexValue(f, i, e);
    ScaledIndexMeaning(f, index, i, e);
    var d := Eval(ScaledIndex(f, index, i), e);
    WrapAdd(p, s + d, c);
    WrapSum(p, s + c, total, d, x);
  }

  lemma {:induction false} GepMeaning(f: Func, v: nat, k: nat, b: nat, e: Env)
    requires ShiftsAgree(f, b, e) && ValidEnv(f, e) && Consistent(f, b, e) && Encodable(f, v)
    requires f.Available(v, b) && f.values[v].def.Gep? && k == |f.values[v].def.indices|
    ensures Eval(Enc(f, v), e) == Lookup(e, v)
    decreases v, 0, k + 2
  {
    assert f.ValidValue(v) && Computes(f, v, e);
    GepSplit(f, v, k, b, e);
    var t := GepTerm(f, v, k);
    GepShaped(f, v, k);
    EvalBounded(t, e);
    WrapId(f.ptrSize, Eval(t, e));
  }

  function ConstIndexValue(f: Func, i: Index): int
    requires f.ValidIndex(i) && IsConstIndex(f, i)
  {
    match i
    case Field(v, layout) => layout[f.values[v].def.val]
    case Element(v, size) => Signed(f.values[v].width, f.values[v].def.val) * size
  }

  lemma ConstIndexMeaning(f: Func, prev: nat, i: Index)
    requires IsConstIndex(f, i) && f.ValidIndex(i) && prev < Pow2(f.ptrSize)
    requires f.values[i.v].def.val < Pow2(f.values[i.v].width)
    ensures AddConstIndex(f, prev, i) == Wrap(f.ptrSize, prev + ConstIndexValue(f, i))
  {
    var p, w, c := f.ptrSize, f.values[i.v].width, f.values[i.v].def.val;
    if c == 0 {
      WrapId(p, prev);
    } else if i.Element? {
      WrapTwice(p, Signed(w, c));
      ResizeCongruent(w, p, c);
      WrapTwice(p, c);
      WrapTwice(p, i.size);
      WrapProduct(p, Wrap(p, i.size), SextOrTrunc(w, p, c), i.size, Signed(w, c));
      WrapTwice(p, Wrap(p, i.size) * SextOrTrunc(w, p, c));
      assert i.size * Signed(w, c) == Signed(w, c) * i.size;
      WrapSum(p, prev, prev, Wrap(p, Wrap(p, i.size) * SextOrTrunc(w, p, c)), ConstIndexValue(f, i));
    }
  }

  lemma ScaledIndexMeaning(f: Func, t: Term, i: Index, e: Env)
    requires f.ptrSize >= 1 && i.Element? && Eval(t, e) < Pow2(Width(t))
    ensures Wrap(f.ptrSize, Eval(ScaledIndex(f, t, i), e))
            == Wrap(f.ptrSize, Signed(Width(t), Eval(t, e)) * i.size)
  {
    var p, w, x := f.ptrSize, Width(t), Eval(t, e);
    var y := Eval(Resize(t, p), e);
    ResizeMeaning(t, p, e);
    WrapTwice(p, i.size);
    WrapProduct(p, y, Wrap(p, i.size), Signed(w, x), i.size);
    WrapTwice(p, y * Wrap(p, i.size));
  }

  lemma ResizeMeaning(t: Term, p: nat, e: Env)
    requires p >= 1 && Eval(t, e) < Pow2(Width(t))
    ensures Wrap(p, Eval(Resize(t, p), e)) == Wrap(p, Signed(Width(t), Eval(t, e)))
  {
    var w, x := Width(t), Eval(t, e);
    if w > p {
      DivByOne(x);
      WrapTwice(p, x);
    }
    if w < p {
      WrapTwice(p, Signed(w, x));
    }
    ResizeCongruent(w, p, x);
  }
}
