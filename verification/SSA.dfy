/** Functions in SSA form: what the encoders read of LLVM's IR, and how such a function runs.

    Values and blocks are numbers.  The numbering carries the acyclicity the encoders rely on:
    a value's operands (other than a PHI's) have smaller numbers, and every edge that is not a
    back edge leads to a block with a larger number. */
module SSA {
  import opened BitVec
  import opened CRanges
  import opened Terms

  datatype BinOp = Plain(op: ArithOp) | Shl | LShr | AShr

  /** A GEP index: a struct field, with the byte offsets of the struct's fields, or an array
      element of the given size. */
  datatype Index = Field(v: nat, layout: seq<nat>) | Element(v: nat, size: nat)

  datatype Def =
    | ConstInt(val: nat)
    | NullPtr
    | Undef
    | OtherConst
    | Argument
    | Phi(incoming: map<nat, nat>)
    | Opaque                                    // loads, calls, ...: any value of the type
    | Trunc(a: nat) | ZExt(a: nat) | SExt(a: nat) | BitCast(a: nat) | PtrToInt(a: nat)
    | Binary(bin: BinOp, a: nat, b: nat)
    | ICmp(pred: CmpOp, a: nat, b: nat)
    | Select(c: nat, a: nat, b: nat)
    | WithOverflow(ovf: OvfOp, a: nat, b: nat)  // llvm.*.with.overflow: {result, overflow bit}
    | ExtractValue(agg: nat, index: nat)
    | Gep(base: nat, indices: seq<Index>)

  /** home is the defining block, or GLOBAL for constants and arguments; ranges is the "intrange"
      metadata, a list of [lo, hi) pairs. */
  datatype Value = Value(def: Def, width: nat, analyzable: bool, home: int, ranges: seq<(nat, nat)>)

  const GLOBAL: int := -1

  datatype Terminator =
    | Br(dest: nat)
    | CondBr(cond: nat, ifTrue: nat, ifFalse: nat)
    | Switch(cond: nat, default: nat, cases: seq<(nat, nat)>)  // (case constant, successor)
    | IndirectBr(dests: set<nat>)
    | Invoke(normal: nat, unwind: nat)
    | Exit

  function Successors(t: Terminator): set<nat> {
    match t
    case Br(d) => {d}
    case CondBr(_, x, y) => {x, y}
    case Switch(_, d, cases) => {d} + set i | 0 <= i < |cases| :: cases[i].1
    case IndirectBr(ds) => ds
    case Invoke(x, y) => {x, y}
    case Exit => {}
  }

  datatype RawFunc = Func(
    values: seq<Value>, terms: seq<Terminator>, preds: seq<seq<nat>>, back: set<(nat, nat)>, ptrSize: nat)
  {
    predicate Edge(p: nat, b: nat) {
      p < |terms| && b < |terms| && b in Successors(terms[p])
    }

    // ----- Dominance

    ghost predicate Path(path: seq<nat>, b: nat) {
      && |path| > 0 && path[0] == 0 && path[|path| - 1] == b && b < |terms|
      && forall i :: 0 < i < |path| ==> Edge(path[i - 1], path[i])
    }

    /** Every path from the entry block to b goes through d. */
    ghost predicate Dominates(d: nat, b: nat) {
      forall path :: Path(path, b) ==> d in path
    }

    /** The definition of u is available in block b. */
    ghost predicate Available(u: nat, b: nat) {
      u < |values| && (values[u].home == GLOBAL || (values[u].home >= 0 && Dominates(values[u].home, b)))
    }

    // ----- Well-formedness

    predicate IsInt(u: nat, width: nat) {
      u < |values| && values[u].analyzable && values[u].width == width
    }

    predicate IsOperand(v: nat, u: nat) {
      u < v && u < |values| && values[u].analyzable
    }

    predicate ValidIndex(i: Index) {
      && i.v < |values| && values[i.v].analyzable
      && (i.Field? ==>
            && values[i.v].def.ConstInt? && values[i.v].def.val < |i.layout| && i.layout[0] == 0)
    }

    predicate WellTypedDef(v: nat)
      requires v < |values|
    {
      var w := values[v].width;
      match values[v].def
      case ConstInt(c) => c < Pow2(w)
      case NullPtr => true
      case Undef => true
      case OtherConst => true
      case Argument => true
      case Phi(incoming) => forall p :: p in incoming ==> incoming[p] < |values|
      case Opaque => true
      case Trunc(a) => IsOperand(v, a) && w < values[a].width
      case ZExt(a) => IsOperand(v, a) && w > values[a].width
      case SExt(a) => IsOperand(v, a) && w > values[a].width
      case BitCast(a) => a < v && (values[a].analyzable ==> values[a].width == w)
      case PtrToInt(a) => IsOperand(v, a)
      case Binary(op, a, b) =>
        && IsOperand(v, a) && IsOperand(v, b) && values[a].width == values[b].width == w
        && (op.Plain? || w >= 2)
      case ICmp(_, a, b) =>
        && IsOperand(v, a) && IsOperand(v, b) && values[a].width == values[b].width && w == 1
      case Select(c, a, b) =>
        && IsOperand(v, c) && IsOperand(v, a) && IsOperand(v, b)
        && values[c].width == 1 && values[a].width == values[b].width == w
      case WithOverflow(_, a, b) =>
        && IsOperand(v, a) && IsOperand(v, b) && values[a].width == values[b].width && w == values[a].width + 1
      case ExtractValue(agg, k) =>
        && agg < v
        && (values[agg].def.WithOverflow? ==>
              && k <= 1 && values[agg].def.a < agg && values[agg].def.b < agg
              && w == if k == 0 then values[values[agg].def.a].width else 1)
      case Gep(base, idxs) =>
        && IsOperand(v, base) && values[base].width == w == ptrSize
        && forall i :: 0 <= i < |idxs| ==> ValidIndex(idxs[i]) && idxs[i].v < v
    }

    /** The operands an instruction reads when it executes; a PHI reads its own on the edges. */
    function Uses(v: nat): set<nat>
      requires v < |values|
    {
      match values[v].def
      case Trunc(a) => {a}
      case ZExt(a) => {a}
      case SExt(a) => {a}
      case BitCast(a) => {a}
      case PtrToInt(a) => {a}
      case Binary(_, a, b) => {a, b}
      case ICmp(_, a, b) => {a, b}
      case Select(c, a, b) => {c, a, b}
      case WithOverflow(_, a, b) => {a, b}
      case ExtractValue(agg, _) => {agg}
      case Gep(base, idxs) => {base} + set i | 0 <= i < |idxs| :: idxs[i].v
      case _ => {}
    }

    predicate IsFree(d: Def) {
      d.Undef? || d.OtherConst? || d.Argument? || d.Phi? || d.Opaque?
    }

    ghost predicate ValidValue(v: nat)
      requires v < |values|
    {
      var x := values[v];
      && GLOBAL <= x.home < |terms|
      && (x.analyzable ==> x.width >= 1)
      && (!x.analyzable ==> IsFree(x.def) || x.def.WithOverflow?)
      && (x.def.WithOverflow? ==> !x.analyzable)
      && WellTypedDef(v)
      && (forall u :: u in Uses(v) ==>
            if x.home == GLOBAL then values[u].home == GLOBAL else Available(u, x.home))
      && (x.def.Phi? ==> x.home >= 0 && ValidIncoming(v, x.home))
      && (x.ranges != [] ==> x.analyzable && (x.def.Phi? || x.def.Opaque?))
      && (forall i :: 0 <= i < |x.ranges| ==> x.ranges[i].0 < Pow2(x.width) && x.ranges[i].1 < Pow2(x.width))
    }

    /** A PHI of block b has, for each predecessor, an operand available at the end of it. */
    ghost predicate ValidIncoming(v: nat, b: nat)
      requires v < |values| && values[v].def.Phi?
    {
      forall p: nat :: Edge(p, b) ==>
        && p in values[v].def.incoming
        && var u := values[v].def.incoming[p];
           u < |values| && Available(u, p)
           && values[u].analyzable == values[v].analyzable && values[u].width == values[v].width
    }

    predicate IsCase(u: nat, width: nat) {
      IsInt(u, width) && values[u].def.ConstInt? && values[u].home == GLOBAL
    }

    /** Conditions are available where they are tested; case values are distinct constants. */
    ghost predicate ValidTerm(b: nat)
      requires b < |terms|
    {
      && (forall s :: s in Successors(terms[b]) ==> s < |terms|)
      && match terms[b]
         case CondBr(c, _, _) => IsInt(c, 1) && Available(c, b)
         case Switch(c, _, cases) =>
           && c < |values| && IsInt(c, values[c].width) && Available(c, b)
           && (forall i :: 0 <= i < |cases| ==> IsCase(cases[i].0, values[c].width))
           && (forall i, j :: 0 <= i < j < |cases| ==> values[cases[i].0].def.val != values[cases[j].0].def.val)
         case _ => true
    }

    /** What the verifier of LLVM guarantees, what FindFunctionBackedges guarantees (without the
        back edges the graph is acyclic and every block reachable), and the layout of structs. */
    ghost predicate Valid() {
      && ptrSize >= 1 && |terms| >= 1 && |preds| == |terms| && preds[0] == []
      && (forall b: nat, p: nat :: b < |terms| ==> (p in preds[b] <==> Edge(p, b)))
      && (forall p: nat, b: nat :: Edge(p, b) && (p, b) !in back ==> p < b)
      && (forall b: nat :: 0 < b < |terms| ==> HasForwardPred(b))
      && (forall v: nat :: v < |values| ==> ValidValue(v))
      && (forall b: nat :: b < |terms| ==> ValidTerm(b))
    }

    ghost predicate HasForwardPred(b: nat) {
      exists p: nat :: Edge(p, b) && (p, b) !in back
    }
  }

  /** The functions the encoders are given. */
  type Func = f: RawFunc | f.Valid() ghost witness Func([], [Exit], [[]], {}, 1)

  /** The part of a value's validity that its encoding depends on. */
  lemma Typing(f: Func, v: nat)
    requires v < |f.values|
    ensures f.WellTypedDef(v)
    ensures f.values[v].analyzable ==> f.values[v].width >= 1
    ensures !f.values[v].analyzable ==> f.IsFree(f.values[v].def) || f.values[v].def.WithOverflow?
    ensures f.values[v].def.WithOverflow? ==> !f.values[v].analyzable
  {
    assert f.ValidValue(v);
  }

  // ----- Dominance follows the numbering

  /** A path to b along edges that are not back edges: its blocks are numbered at most b. */
  lemma {:induction false} ForwardPath(f: Func, b: nat) returns (path: seq<nat>)
    requires b < |f.terms|
    ensures f.Path(path, b) && forall x :: x in path ==> x <= b
  {
    if b == 0 {
      path := [0];
    } else {
      assert f.HasForwardPred(b);
      var p: nat :| f.Edge(p, b) && (p, b) !in f.back;
      var before := ForwardPath(f, p);
      path := before + [b];
    }
  }

  lemma DominatorBelow(f: Func, d: nat, b: nat)
    requires b < |f.terms| && f.Dominates(d, b)
    ensures d <= b
  {
    var path := ForwardPath(f, b);
  }

  lemma DominatesPred(f: Func, d: nat, p: nat, b: nat)
    requires f.Dominates(d, b) && d != b && f.Edge(p, b)
    ensures f.Dominates(d, p)
  {
    forall path | f.Path(path, p)
      ensures d in path
    {
      assert f.Path(path + [b], b);
    }
  }

  lemma DominatesTransitive(f: Func, d: nat, m: nat, b: nat)
    requires f.Dominates(d, m) && f.Dominates(m, b)
    ensures f.Dominates(d, b)
  {
    forall path | f.Path(path, b)
      ensures d in path
    {
      var i :| 0 <= i < |path| && path[i] == m;
      var prefix := path[..i + 1];
      assert f.Path(prefix, m) by {
        assert m < |f.terms| by {
          if i > 0 {
            assert f.Edge(path[i - 1], path[i]);
          } else if |path| > 1 {
            assert f.Edge(path[0], path[1]);
          }
        }
      }
      assert d in prefix;
    }
  }

  lemma AvailableThrough(f: Func, u: nat, m: nat, b: nat)
    requires f.Available(u, m) && f.Dominates(m, b)
    ensures f.Available(u, b)
  {
    if f.values[u].home != GLOBAL {
      DominatesTransitive(f, f.values[u].home, m, b);
    }
  }

  lemma AvailableBelow(f: Func, u: nat, b: nat)
    requires b < |f.terms| && f.Available(u, b)
    ensures f.values[u].home <= b
  {
    if f.values[u].home != GLOBAL {
      DominatorBelow(f, f.values[u].home, b);
    }
  }

  // ----- Execution

  /** The exact sum a GEP denotes after its first k indices. */
  function GepSum(f: Func, base: nat, indices: seq<Index>, k: nat, e: Env): int
    requires k <= |indices| && forall i :: 0 <= i < |indices| ==> f.ValidIndex(indices[i])
  {
    if k == 0 then Lookup(e, base)
    else GepSum(f, base, indices, k - 1, e) +
         match indices[k - 1]
         case Field(v, layout) => layout[f.values[v].def.val]
         case Element(v, size) => Signed(f.values[v].width, Lookup(e, v)) * size
  }

  /** A shift by less than the width; LLVM leaves larger amounts undefined, and here they are
      taken modulo the next power of two. */
  function ShiftResult(op: BinOp, n: nat, x: nat, amount: nat): nat
    requires !op.Plain? && n >= 2
  {
    var s := amount % Pow2(CeilLog2(n));
    match op
    case Shl => ShlBits(n, x, s)
    case LShr => LshrBits(x, s)
    case AShr => AshrBits(n, x, s)
  }

  /** The value of v agrees with the values of its operands. A division by zero, which LLVM leaves
      undefined, has the value it has in the theory of bit vectors. */
  predicate Computes(f: Func, v: nat, e: Env)
    requires v < |f.values|
  {
    var w := f.values[v].width;
    var r := Lookup(e, v);
    f.WellTypedDef(v) &&
    match f.values[v].def
    case ConstInt(c) => r == c
    case NullPtr => r == 0
    case Undef => true
    case OtherConst => true
    case Argument => true
    case Phi(_) => true
    case Opaque => true
    case Trunc(a) => r == Wrap(w, Lookup(e, a))
    case ZExt(a) => r == Lookup(e, a)
    case SExt(a) => r == Wrap(w, Signed(f.values[a].width, Lookup(e, a)))
    case BitCast(a) => f.values[a].analyzable ==> r == Lookup(e, a)
    case PtrToInt(a) => r == Wrap(w, Lookup(e, a))
    case Binary(Plain(op), a, b) => r == ArithResult(op, w, Lookup(e, a), Lookup(e, b))
    case Binary(op, a, b) => r == ShiftResult(op, w, Lookup(e, a), Lookup(e, b))
    case ICmp(op, a, b) => r == BoolBit(CmpHolds(op, f.values[a].width, Lookup(e, a), Lookup(e, b)))
    case Select(c, a, b) => r == if Lookup(e, c) == 1 then Lookup(e, a) else Lookup(e, b)
    case WithOverflow(op, a, b) =>
      var n := f.values[a].width;
      r == Wrap(n, Exact(op, n, Lookup(e, a), Lookup(e, b)))
           + Pow2(n) * BoolBit(Overflows(op, n, Lookup(e, a), Lookup(e, b)))
    case ExtractValue(agg, k) =>
      f.values[agg].def.WithOverflow? ==>
        var n := f.values[f.values[agg].def.a].width;
        r == if k == 0 then Wrap(n, Lookup(e, agg)) else LshrBits(Lookup(e, agg), n)
    case Gep(base, idxs) => r == Wrap(f.ptrSize, GepSum(f, base, idxs, |idxs|, e))
  }

  /** The value a terminator branches on; 0 if it does not branch on one. */
  function Condition(f: Func, p: nat): (c: nat)
    requires p < |f.terms|
  {
    match f.terms[p]
    case CondBr(c, _, _) => c
    case Switch(c, _, _) => c
    case _ => 0
  }

  /** The terminator of p transfers control to b when its condition has the value x. */
  predicate Chooses(f: Func, p: nat, b: nat, x: nat)
    requires p < |f.terms|
  {
    match f.terms[p]
    case Br(d) => b == d
    case CondBr(_, ifTrue, ifFalse) => b == if x == 1 then ifTrue else ifFalse
    case Switch(_, d, cases) => if HasCase(f, cases, x) then HasCaseTo(f, cases, x, b) else b == d
    case IndirectBr(ds) => b in ds
    case Invoke(normal, unwind) => b == normal || b == unwind
    case Exit => false
  }

  predicate HasCase(f: Func, cases: seq<(nat, nat)>, x: nat) {
    exists i :: 0 <= i < |cases| && CaseValue(f, cases[i].0) == x
  }

  predicate HasCaseTo(f: Func, cases: seq<(nat, nat)>, x: nat, b: nat) {
    exists i :: 0 <= i < |cases| && CaseValue(f, cases[i].0) == x && cases[i].1 == b
  }

  function CaseValue(f: Func, u: nat): nat {
    if u < |f.values| && f.values[u].def.ConstInt? then f.values[u].def.val else 0
  }

  /** Every integer or pointer has a value of its width. */
  ghost predicate Sized(f: Func, e: Env) {
    forall v :: 0 <= v < |f.values| && f.values[v].analyzable ==> Lookup(e, v) < Pow2(f.values[v].width)
  }

  /** The environment of a run moreover stays inside the annotated ranges. */
  ghost predicate ValidEnv(f: Func, e: Env) {
    Sized(f, e) && forall v :: 0 <= v < |f.values| ==> InRanges(f, v, e)
  }

  ghost predicate InRanges(f: Func, v: nat, e: Env)
    requires v < |f.values|
  {
    var x := f.values[v];
    forall i :: 0 <= i < |x.ranges| && x.ranges[i].0 != x.ranges[i].1 ==>
      CRange(x.width, x.ranges[i].0, x.ranges[i].1).Contains(Lookup(e, v))
  }

  datatype State = State(block: nat, env: Env)

  /** Execution starts by running the entry block; values not yet defined are arbitrary. */
  ghost predicate Initial(f: Func, s: State)
  {
    && s.block == 0 && ValidEnv(f, s.env)
    && forall v :: 0 <= v < |f.values| && f.values[v].home <= 0 ==> Computes(f, v, s.env)
  }

  /** Leave block s.block for s'.block: its PHIs read the old environment all at once, then the
      other instructions of the block compute their values; nothing else changes. */
  ghost predicate Step(f: Func, s: State, s': State)
  {
    && f.Edge(s.block, s'.block) && Chooses(f, s.block, s'.block, Lookup(s.env, Condition(f, s.block)))
    && ValidEnv(f, s'.env)
    && forall v :: 0 <= v < |f.values| ==>
         if f.values[v].home == s'.block then
           if f.values[v].def.Phi? then PhiReads(f, v, s, s') else Computes(f, v, s'.env)
         else Lookup(s'.env, v) == Lookup(s.env, v)
  }

  /** An undef operand may give any value. */
  ghost predicate PhiReads(f: Func, v: nat, s: State, s': State)
    requires v < |f.values| && f.values[v].def.Phi?
  {
    var incoming := f.values[v].def.incoming;
    s.block in incoming && incoming[s.block] < |f.values| &&
    (f.values[incoming[s.block]].def.Undef? || Lookup(s'.env, v) == Lookup(s.env, incoming[s.block]))
  }

  ghost predicate Execution(f: Func, run: seq<State>)
  {
    && |run| > 0 && Initial(f, run[0])
    && forall i :: 0 < i < |run| ==> Step(f, run[i - 1], run[i])
  }

  // ----- What executions keep: available values agree with their operands

  /** The values available in block b have been computed from the current values of their operands. */
  ghost predicate Consistent(f: Func, b: nat, e: Env) {
    forall u: nat :: f.Available(u, b) ==> Computes(f, u, e)
  }

  /** The blocks in which the operands of a value live are numbered no higher than its own. */
  lemma UsesBelow(f: Func, v: nat, u: nat)
    requires v < |f.values| && u in f.Uses(v)
    ensures u < v && f.values[u].home <= f.values[v].home
  {
    assert f.ValidValue(v);
    assert f.ValidValue(u);
    if f.values[v].home != GLOBAL {
      AvailableBelow(f, u, f.values[v].home);
    }
  }

  lemma UseAvailable(f: Func, v: nat, u: nat, b: nat)
    requires f.Available(v, b) && u in f.Uses(v)
    ensures u < v && f.Available(u, b)
  {
    assert f.ValidValue(v);
    if f.values[v].home != GLOBAL {
      AvailableThrough(f, u, f.values[v].home, b);
    }
  }

  lemma ConstValue(f: Func, u: nat, b: nat, e: Env)
    requires Consistent(f, b, e) && f.Available(u, b)
    ensures f.values[u].def.ConstInt? ==> Lookup(e, u) == f.values[u].def.val
  {
  }

  lemma GepSumFrame(f: Func, base: nat, idxs: seq<Index>, k: nat, e: Env, e': Env)
    requires k <= |idxs| && forall i :: 0 <= i < |idxs| ==> f.ValidIndex(idxs[i])
    requires Lookup(e, base) == Lookup(e', base)
    requires forall i :: 0 <= i < |idxs| ==> Lookup(e, idxs[i].v) == Lookup(e', idxs[i].v)
    ensures GepSum(f, base, idxs, k, e) == GepSum(f, base, idxs, k, e')
  {
  }

  /** Whether a value agrees with its operands depends on these values only. */
  lemma ComputesFrame(f: Func, v: nat, e: Env, e': Env)
    requires v < |f.values| && f.WellTypedDef(v)
    requires Lookup(e, v) == Lookup(e', v) && forall u :: u in f.Uses(v) ==> Lookup(e, u) == Lookup(e', u)
    ensures Computes(f, v, e) ==> Computes(f, v, e')
  {
    if f.values[v].def.Gep? {
      var Gep(base, idxs) := f.values[v].def;
      forall i | 0 <= i < |idxs|
        ensures f.ValidIndex(idxs[i]) && Lookup(e, idxs[i].v) == Lookup(e', idxs[i].v)
      {
        assert idxs[i].v in f.Uses(v);
      }
      GepSumFrame(f, base, idxs, |idxs|, e, e');
    }
  }

  /** Entering a block changes the values defined there, and no others. */
  ghost predicate Moves(f: Func, s: State, s': State) {
    && f.Edge(s.block, s'.block)
    && forall v :: 0 <= v < |f.values| && f.values[v].home != s'.block ==> Lookup(s'.env, v) == Lookup(s.env, v)
  }

  lemma InitialConsistent(f: Func, s: State)
    requires Initial(f, s)
    ensures Consistent(f, 0, s.env)
  {
    forall u: nat | f.Available(u, 0)
      ensures Computes(f, u, s.env)
    {
      AvailableBelow(f, u, 0);
    }
  }

  lemma StepConsistent(f: Func, s: State, s': State)
    requires Step(f, s, s') && Consistent(f, s.block, s.env)
    ensures Consistent(f, s'.block, s'.env)
  {
    forall u: nat | f.Available(u, s'.block)
      ensures Computes(f, u, s'.env)
    {
      Typing(f, u);
      if f.values[u].home == s'.block {
        assert f.values[u].def.Phi? || Computes(f, u, s'.env);
      } else {
        StillComputes(f, s, s', u);
      }
    }
  }

  lemma StillComputes(f: Func, s: State, s': State, u: nat)
    requires Moves(f, s, s') && Consistent(f, s.block, s.env)
    requires f.Available(u, s'.block) && f.values[u].home != s'.block
    ensures Computes(f, u, s'.env)
  {
    Typing(f, u);
    AvailableBelow(f, u, s'.block);
    if f.values[u].home != GLOBAL {
      DominatesPred(f, f.values[u].home, s.block, s'.block);
    }
    assert f.Available(u, s.block);
    forall w | w in f.Uses(u)
      ensures Lookup(s.env, w) == Lookup(s'.env, w)
    {
      UsesBelow(f, u, w);
    }
    ComputesFrame(f, u, s.env, s'.env);
  }

  /** At every point of an execution. */
  lemma {:induction false} ExecutionConsistent(f: Func, run: seq<State>, i: nat)
    requires Execution(f, run) && i < |run|
    ensures run[i].block < |f.terms| && ValidEnv(f, run[i].env) && Consistent(f, run[i].block, run[i].env)
  {
    hide Consistent, ValidEnv;
    if i == 0 {
      InitialConsistent(f, run[0]);
    } else {
      ExecutionConsistent(f, run, i - 1);
      assert Step(f, run[i - 1], run[i]);
      StepConsistent(f, run[i - 1], run[i]);
    }
  }
}
