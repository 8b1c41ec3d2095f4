/** IdealShift: every shift by a variable amount is given the value of the mathematical shift also
    for amounts that LLVM leaves undefined. */
module IdealShifts {
  import opened BitVec
  import opened Solver
  import opened Terms

  datatype Operand = Constant(val: nat) | Reg(id: nat)

  /** Shift is a shift of integers. Of the other instructions it only matters what they read: rel
      relates the values of the operands before the block is entered, those in it, and the result.
      Arguments are instructions of the entry block. */
  datatype Op =
    | Shift(op: BvOp, l: Operand, r: Operand)
    | UgeOp(x: Operand, y: Operand)
    | SelectOp(c: Operand, x: Operand, y: Operand)
    | Other(args: seq<Operand>, rel: (seq<nat>, seq<nat>, nat) -> bool)

  datatype Inst = Inst(id: nat, block: nat, width: nat, op: Op)

  type Regs = nat -> nat

  // ----- What instructions mean

  function Val(o: Operand, e: Regs): nat {
    match o
    case Constant(c) => c
    case Reg(id) => e(id)
  }

  function Vals(os: seq<Operand>, e: Regs): (r: seq<nat>)
    ensures |r| == |os| && forall k :: 0 <= k < |os| ==> r[k] == Val(os[k], e)
  {
    if os == [] then [] else [Val(os[0], e)] + Vals(os[1..], e)
  }

  /** What an instruction does when its block is entered, from the registers e to e'. A shift shifts a
      number of its width; by LLVM's rules only amounts below the width have a defined result, ideally
      all have. */
  predicate Computes(i: Inst, ideal: bool, e: Regs, e': Regs) {
    match i.op
    case Shift(op, l, r) =>
      && Val(l, e') < Pow2(i.width)
      && (ideal || Val(r, e') < i.width ==> e'(i.id) == EvalBin(op, i.width, Val(l, e'), Val(r, e')))
    case UgeOp(x, y) => e'(i.id) == BoolBit(Val(x, e') >= Val(y, e'))
    case SelectOp(c, x, y) => e'(i.id) == if Val(c, e') == 1 then Val(x, e') else Val(y, e')
    case Other(args, rel) => rel(Vals(args, e), Vals(args, e'), e'(i.id))
  }

  /** Entering block b runs its instructions, those in ideal by the ideal rule, and keeps the results
      of all others. */
  predicate Enters(body: seq<Inst>, b: nat, ideal: set<nat>, e: Regs, e': Regs) {
    forall k :: 0 <= k < |body| ==> InstEnters(body[k], b, body[k].id in ideal, e, e')
  }

  predicate InstEnters(i: Inst, b: nat, ideal: bool, e: Regs, e': Regs) {
    if i.block == b then Computes(i, ideal, e, e') else e'(i.id) == e(i.id)
  }

  /** An execution that enters these blocks, one after the other; run[0] is the state before. */
  ghost predicate Executes(body: seq<Inst>, ideal: set<nat>, blocks: seq<nat>, run: seq<Regs>) {
    |run| == |blocks| + 1 && forall j :: 0 <= j < |blocks| ==> Enters(body, blocks[j], ideal, run[j], run[j + 1])
  }

  predicate Below(o: Operand, n: nat) {
    o.Reg? ==> o.id < n
  }

  predicate Within(i: Inst, n: nat) {
    && i.id < n
    && match i.op
       case Shift(op, l, r) => Below(l, n) && Below(r, n) && IsShift(op) && i.width >= 1
       case UgeOp(x, y) => Below(x, n) && Below(y, n)
       case SelectOp(c, x, y) => Below(c, n) && Below(x, n) && Below(y, n)
       case Other(args, _) => forall k :: 0 <= k < |args| ==> Below(args[k], n)
  }

  predicate Valid(body: seq<Inst>, n: nat) {
    && (forall k :: 0 <= k < |body| ==> Within(body[k], n))
    && (forall k, m :: 0 <= k < m < |body| ==> body[k].id != body[m].id)
  }

  // ----- Replacing uses

  function Rename(o: Operand, v: nat, s: nat): Operand {
    if o == Reg(v) then Reg(s) else o
  }

  function RenameArgs(os: seq<Operand>, v: nat, s: nat): (r: seq<Operand>)
    ensures |r| == |os| && forall k :: 0 <= k < |os| ==> r[k] == Rename(os[k], v, s)
  {
    if os == [] then [] else [Rename(os[0], v, s)] + RenameArgs(os[1..], v, s)
  }

  function RenameInst(i: Inst, v: nat, s: nat): Inst {
    match i.op
    case Shift(op, l, r) => i.(op := Shift(op, Rename(l, v, s), Rename(r, v, s)))
    case UgeOp(x, y) => i.(op := UgeOp(Rename(x, v, s), Rename(y, v, s)))
    case SelectOp(c, x, y) => i.(op := SelectOp(Rename(c, v, s), Rename(x, v, s), Rename(y, v, s)))
    case Other(args, rel) => i.(op := Other(RenameArgs(args, v, s), rel))
  }

  function Read(e: Regs, v: nat, s: nat): Regs {
    x => if x == v then e(s) else e(x)
  }

  /** Renamed uses of v read s. */
  lemma RenamedComputes(i: Inst, v: nat, s: nat, ideal: bool, e: Regs, e': Regs)
    requires i.id != v
    ensures Computes(RenameInst(i, v, s), ideal, e, e') <==> Computes(i, ideal, Read(e, v, s), Read(e', v, s))
  {
    hide EvalBin, Pow2;
    if i.op.Other? {
      assert Vals(RenameArgs(i.op.args, v, s), e) == Vals(i.op.args, Read(e, v, s));
      assert Vals(RenameArgs(i.op.args, v, s), e') == Vals(i.op.args, Read(e', v, s));
    }
  }

  predicate SameBelow(n: nat, e: Regs, f: Regs) {
    forall x :: 0 <= x < n ==> e(x) == f(x)
  }

  lemma ComputesFrame(i: Inst, n: nat, ideal: bool, e: Regs, e': Regs, f: Regs, f': Regs)
    requires Within(i, n) && SameBelow(n, e, f) && SameBelow(n, e', f')
    ensures Computes(i, ideal, e, e') <==> Computes(i, ideal, f, f')
  {
    hide EvalBin, Pow2;
    if i.op.Other? {
      assert Vals(i.op.args, e) == Vals(i.op.args, f) && Vals(i.op.args, e') == Vals(i.op.args, f');
    }
  }

  // ----- One rewriting

  predicate Candidate(i: Inst) {
    i.op.Shift? && i.op.r.Reg?
  }

  /** The guard, the value for oversized amounts, and the select between it and the shift; next,
      next + 1 and next + 2 are new registers. */
  function Guarded(i: Inst, next: nat): seq<Inst>
    requires i.op.Shift? && i.width >= 1
  {
    var n := i.width;
    var l, r := Rename(i.op.l, i.id, next + 2), Rename(i.op.r, i.id, next + 2);
    [Inst(next, i.block, 1, UgeOp(r, Constant(n)))]
    + (if i.op.op == Sra then [Inst(next + 1, i.block, n, Shift(Sra, l, Constant(n - 1)))] else [])
    + [Inst(next + 2, i.block, n,
            SelectOp(Reg(next), if i.op.op == Sra then Reg(next + 1) else Constant(0), Reg(i.id)))]
  }

  function RenameAll(body: seq<Inst>, v: nat, s: nat): (r: seq<Inst>)
    ensures |r| == |body| && forall k :: 0 <= k < |body| ==> r[k] == RenameInst(body[k], v, s)
  {
    if body == [] then [] else [RenameInst(body[0], v, s)] + RenameAll(body[1..], v, s)
  }

  /** The body after the shift at k has been wrapped. */
  function Wrapped(body: seq<Inst>, k: nat, next: nat): seq<Inst>
    requires k < |body| && body[k].op.Shift? && body[k].width >= 1
  {
    var v := body[k].id;
    RenameAll(body[..k + 1], v, next + 2) + Guarded(body[k], next) + RenameAll(body[k + 1..], v, next + 2)
  }

  lemma OversizedIsIdeal(op: BvOp, n: nat, x: nat, s: nat)
    requires IsShift(op) && n >= 1 && x < Pow2(n) && s >= n
    ensures EvalBin(op, n, x, s) == if op == Sra then EvalBin(Sra, n, x, n - 1) else 0
  {
    if op == Sra { AshrSaturates(n, x, s); } else { ShiftedOut(n, x, s); }
  }

  /** The wrapped instructions give the select the ideal value of the shift. */
  lemma GuardedComputes(i: Inst, next: nat, e: Regs, e': Regs)
    requires Within(i, next) && i.op.Shift? && Computes(RenameInst(i, i.id, next + 2), false, e, e')
    requires forall m :: 0 <= m < |Guarded(i, next)| ==> Computes(Guarded(i, next)[m], false, e, e')
    ensures Computes(i, true, Read(e, i.id, next + 2), Read(e', i.id, next + 2))
  {
    hide Pow2, EvalBin;
    var gs, f' := Guarded(i, next), Read(e', i.id, next + 2);
    var n, x, s := i.width, Val(i.op.l, f'), Val(i.op.r, f');
    assert Computes(gs[0], false, e, e') && Computes(gs[|gs| - 1], false, e, e');
    assert e'(next) == BoolBit(s >= n);
    if s >= n {
      OversizedIsIdeal(i.op.op, n, x, s);
      if i.op.op == Sra { assert Computes(gs[1], false, e, e'); }
    }
  }

  /** The registers that the wrapped instructions need for the select to have the value v has in e':
      they are set when the block of v is entered, and otherwise stay as they are in f. */
  function WithGuards(f: Regs, e': Regs, i: Inst, next: nat, b: nat): Regs
    requires i.op.Shift? && i.width >= 1
  {
    var n := i.width;
    x => if x != next && x != next + 1 && x != next + 2 then e'(x)
         else if i.block != b then f(x)
         else if x == next then BoolBit(Val(i.op.r, e') >= n)
         else if x == next + 1 then EvalBin(Sra, n, Val(i.op.l, e'), n - 1)
         else e'(i.id)
  }

  lemma GuardsCompute(i: Inst, next: nat, e: Regs, f: Regs, e': Regs)
    requires Within(i, next) && i.op.Shift? && Computes(i, true, e, e')
    ensures Computes(RenameInst(i, i.id, next + 2), false, f, WithGuards(f, e', i, next, i.block))
    ensures forall m :: 0 <= m < |Guarded(i, next)| ==>
              Computes(Guarded(i, next)[m], false, f, WithGuards(f, e', i, next, i.block))
  {
    hide Pow2, EvalBin;
    var gs, f' := Guarded(i, next), WithGuards(f, e', i, next, i.block);
    var n, x, s := i.width, Val(i.op.l, e'), Val(i.op.r, e');
    assert Val(Rename(i.op.l, i.id, next + 2), f') == x && Val(Rename(i.op.r, i.id, next + 2), f') == s;
    if s >= n { OversizedIsIdeal(i.op.op, n, x, s); }
    assert Computes(gs[0], false, f, f');
    assert i.op.op == Sra ==> Computes(gs[1], false, f, f');
    assert Computes(gs[|gs| - 1], false, f, f');
  }

  /** The instruction at m of the wrapped body. */
  function WrappedInst(body: seq<Inst>, k: nat, next: nat, m: nat): Inst
    requires k < |body| && body[k].op.Shift? && body[k].width >= 1 && m < |body| + |Guarded(body[k], next)|
  {
    var g := |Guarded(body[k], next)|;
    if m <= k then RenameInst(body[m], body[k].id, next + 2)
    else if m <= k + g then Guarded(body[k], next)[m - k - 1]
    else RenameInst(body[m - g], body[k].id, next + 2)
  }

  lemma WrappedAt(body: seq<Inst>, k: nat, next: nat)
    requires k < |body| && body[k].op.Shift? && body[k].width >= 1
    ensures |Wrapped(body, k, next)| == |body| + |Guarded(body[k], next)|
    ensures forall m: nat :: m < |Wrapped(body, k, next)| ==>
              Wrapped(body, k, next)[m] == WrappedInst(body, k, next, m)
  {
    hide Guarded, RenameInst;
  }

  lemma GuardedIds(i: Inst, next: nat)
    requires Within(i, next) && i.op.Shift?
    ensures forall m :: 0 <= m < |Guarded(i, next)| ==>
              Within(Guarded(i, next)[m], next + 3) && next <= Guarded(i, next)[m].id
    ensures forall l, m :: 0 <= l < m < |Guarded(i, next)| ==> Guarded(i, next)[l].id != Guarded(i, next)[m].id
  {}

  lemma WrappedValid(body: seq<Inst>, k: nat, next: nat)
    requires Valid(body, next) && k < |body| && body[k].op.Shift?
    ensures Valid(Wrapped(body, k, next), next + 3)
  {
    hide Guarded, Wrapped, RenameInst, Within;
    ShiftHasWidth(body[k], next);
    var w, v, g := Wrapped(body, k, next), body[k].id, |Guarded(body[k], next)|;
    WrappedAt(body, k, next);
    GuardedIds(body[k], next);
    forall m | 0 <= m < |body|
      ensures Within(RenameInst(body[m], v, next + 2), next + 3)
      ensures RenameInst(body[m], v, next + 2).id == body[m].id < next
    {
      RenamedWithin(body[m], v, next);
    }
    assert forall m :: 0 <= m < |w| ==> Within(w[m], next + 3);
    forall l, m | 0 <= l < m < |w| ensures w[l].id != w[m].id {
      assert w[l].id < next || k < l <= k + g;
      assert w[m].id < next || k < m <= k + g;
    }
  }

  lemma ShiftHasWidth(i: Inst, n: nat)
    requires Within(i, n) && i.op.Shift?
    ensures i.width >= 1 && i.id < n
  {}

  lemma RenamedWithin(i: Inst, v: nat, next: nat)
    requires Within(i, next)
    ensures Within(RenameInst(i, v, next + 2), next + 3)
    ensures RenameInst(i, v, next + 2).id == i.id < next && RenameInst(i, v, next + 2).block == i.block
  {}

  /** Entering a block of the wrapped body enters it in the body in which the shift is ideal, for the
      readers of its value. */
  lemma StepSound(body: seq<Inst>, k: nat, next: nat, b: nat, ideal: set<nat>, e: Regs, e': Regs)
    requires Valid(body, next) && k < |body| && body[k].op.Shift? && body[k].id !in ideal
    requires forall x :: x in ideal ==> x < next
    requires body[k].width >= 1 && Enters(Wrapped(body, k, next), b, ideal, e, e')
    ensures Enters(body, b, ideal + {body[k].id}, Read(e, body[k].id, next + 2), Read(e', body[k].id, next + 2))
  {
    hide Guarded, Wrapped, RenameInst, Within, Computes;
    ShiftHasWidth(body[k], next);
    var w, v, g := Wrapped(body, k, next), body[k].id, |Guarded(body[k], next)|;
    WrappedAt(body, k, next);
    GuardedIds(body[k], next);
    GuardedBlocks(body[k], next);
    forall x | 0 <= x < g ensures InstEnters(Guarded(body[k], next)[x], b, false, e, e') {
      assert w[k + 1 + x] == Guarded(body[k], next)[x];
      assert InstEnters(w[k + 1 + x], b, w[k + 1 + x].id in ideal, e, e');
    }
    forall m | 0 <= m < |body|
      ensures InstEnters(body[m], b, body[m].id in ideal + {v}, Read(e, v, next + 2), Read(e', v, next + 2))
    {
      RenamedWithin(body[m], v, next);
      var at := if m <= k then m else m + g;
      assert InstEnters(w[at], b, w[at].id in ideal, e, e') && w[at] == RenameInst(body[m], v, next + 2);
      if m != k {
        RenamedComputes(body[m], v, next + 2, body[m].id in ideal, e, e');
      } else if body[k].block == b {
        GuardedComputes(body[k], next, e, e');
      } else {
        SelectIsLast(body[k], next);
        assert InstEnters(Guarded(body[k], next)[g - 1], b, false, e, e');
      }
    }
  }

  lemma SelectIsLast(i: Inst, next: nat)
    requires i.op.Shift? && i.width >= 1
    ensures var gs := Guarded(i, next); |gs| > 0 && gs[|gs| - 1].id == next + 2 && gs[|gs| - 1].block == i.block
  {}

  /** f shows the registers e of the original body, with the select in step with the shift. */
  predicate InStep(i: Inst, next: nat, e: Regs, f: Regs) {
    SameBelow(next, e, f) && f(next + 2) == e(i.id)
  }

  /** And whenever the body with the ideal shift enters a block, so does the wrapped body. */
  lemma StepComplete(body: seq<Inst>, k: nat, next: nat, b: nat, ideal: set<nat>, e: Regs, e': Regs, f: Regs)
    requires Valid(body, next) && k < |body| && body[k].op.Shift? && body[k].id !in ideal
    requires forall x :: x in ideal ==> x < next
    requires body[k].width >= 1 && Enters(body, b, ideal + {body[k].id}, e, e') && InStep(body[k], next, e, f)
    ensures Enters(Wrapped(body, k, next), b, ideal, f, WithGuards(f, e', body[k], next, b))
    ensures InStep(body[k], next, e', WithGuards(f, e', body[k], next, b))
  {
    hide Guarded, Wrapped, RenameInst, Within, Computes, EvalBin;
    ShiftHasWidth(body[k], next);
    var w, v, g := Wrapped(body, k, next), body[k].id, |Guarded(body[k], next)|;
    var f' := WithGuards(f, e', body[k], next, b);
    WrappedAt(body, k, next);
    GuardedIds(body[k], next);
    GuardedBlocks(body[k], next);
    assert InstEnters(body[k], b, true, e, e');
    assert InStep(body[k], next, e', f');
    forall m | 0 <= m < |body| ensures InstEnters(RenameInst(body[m], v, next + 2), b, body[m].id in ideal, f, f') {
      assert InstEnters(body[m], b, body[m].id in ideal + {v}, e, e');
      RenamedEnters(body, k, next, b, ideal, e, e', f, m);
    }
    forall x | 0 <= x < g ensures InstEnters(Guarded(body[k], next)[x], b, false, f, f') {
      if body[k].block == b { GuardsCompute(body[k], next, e, f, e'); }
    }
    forall m | 0 <= m < |w| ensures InstEnters(w[m], b, w[m].id in ideal, f, f') {
      RenamedWithin(if m <= k then body[m] else if m > k + g then body[m - g] else body[k], v, next);
    }
  }

  lemma GuardedBlocks(i: Inst, next: nat)
    requires i.op.Shift? && i.width >= 1
    ensures forall m :: 0 <= m < |Guarded(i, next)| ==>
              Guarded(i, next)[m].block == i.block && next <= Guarded(i, next)[m].id <= next + 2
  {}

  /** One instruction of the original body, renamed. */
  lemma RenamedEnters(body: seq<Inst>, k: nat, next: nat, b: nat, ideal: set<nat>, e: Regs, e': Regs, f: Regs, m: nat)
    requires Valid(body, next) && k < |body| && body[k].op.Shift? && body[k].width >= 1 && body[k].id !in ideal
    requires m < |body| && InStep(body[k], next, e, f)
    requires InstEnters(body[m], b, body[m].id in ideal + {body[k].id}, e, e')
    requires InStep(body[k], next, e', WithGuards(f, e', body[k], next, b))
    ensures InstEnters(RenameInst(body[m], body[k].id, next + 2), b, body[m].id in ideal, f,
                       WithGuards(f, e', body[k], next, b))
  {
    hide Guarded, RenameInst, Within, Computes, EvalBin;
    ShiftHasWidth(body[k], next);
    var v, f' := body[k].id, WithGuards(f, e', body[k], next, b);
    RenamedWithin(body[m], v, next);
    if m == k {
      if body[k].block == b { GuardsCompute(body[k], next, e, f, e'); }
    } else if body[m].block == b {
      ComputesFrame(body[m], next, body[m].id in ideal, e, e', Read(f, v, next + 2), Read(f', v, next + 2));
      RenamedComputes(body[m], v, next + 2, body[m].id in ideal, f, f');
    }
  }

  // ----- The pass

  /** What the readers of the original registers see: a wrapped shift is read through its select. */
  function Seen(e: Regs, selects: map<nat, nat>): Regs {
    x => if x in selects then e(selects[x]) else e(x)
  }

  function SeenAll(run: seq<Regs>, selects: map<nat, nat>): (r: seq<Regs>)
    ensures |r| == |run| && forall j :: 0 <= j < |run| ==> r[j] == Seen(run[j], selects)
  {
    seq(|run|, j requires 0 <= j < |run| => Seen(run[j], selects))
  }

  ghost predicate Pending(ideal: set<nat>, n: nat, selects: map<nat, nat>) {
    forall x :: x in ideal ==> x < n && x !in selects
  }

  ghost predicate SoundFor(body0: seq<Inst>, n0: nat, body: seq<Inst>, selects: map<nat, nat>) {
    forall ideal: set<nat>, blocks: seq<nat>, run: seq<Regs> ::
      Pending(ideal, n0, selects) && Executes(body, ideal, blocks, run) ==>
        Executes(body0, ideal + selects.Keys, blocks, SeenAll(run, selects))
  }

  /** run shows the execution run0 of the original function. */
  ghost predicate Shows(body: seq<Inst>, ideal: set<nat>, blocks: seq<nat>, selects: map<nat, nat>, n0: nat,
                        run: seq<Regs>, run0: seq<Regs>) {
    && Executes(body, ideal, blocks, run) && |run| == |run0|
    && forall j :: 0 <= j < |run| ==> SameBelow(n0, Seen(run[j], selects), run0[j])
  }

  ghost predicate CompleteFor(body0: seq<Inst>, n0: nat, body: seq<Inst>, selects: map<nat, nat>) {
    forall ideal: set<nat>, blocks: seq<nat>, run0: seq<Regs> ::
      Pending(ideal, n0, selects) && Executes(body0, ideal + selects.Keys, blocks, run0) ==>
        exists run :: Shows(body, ideal, blocks, selects, n0, run, run0)
  }

  ghost predicate SelectsWithin(selects: map<nat, nat>, n0: nat, n: nat) {
    n0 <= n && forall x :: x in selects ==> x < n0 <= selects[x] < n
  }

  ghost predicate Refines(body0: seq<Inst>, n0: nat, body: seq<Inst>, n: nat, selects: map<nat, nat>) {
    && Valid(body, n) && SelectsWithin(selects, n0, n)
    && SoundFor(body0, n0, body, selects) && CompleteFor(body0, n0, body, selects)
  }

  lemma ExecutesFrame(body: seq<Inst>, n: nat, ideal: set<nat>, ideal': set<nat>, blocks: seq<nat>,
                      run: seq<Regs>, run': seq<Regs>)
    requires Valid(body, n) && Executes(body, ideal, blocks, run) && ideal == ideal' && |run| == |run'|
    requires forall j :: 0 <= j < |run| ==> SameBelow(n, run[j], run'[j])
    ensures Executes(body, ideal', blocks, run')
  {
    hide Computes, Within;
    forall j | 0 <= j < |blocks| ensures Enters(body, blocks[j], ideal', run'[j], run'[j + 1]) {
      assert Enters(body, blocks[j], ideal, run[j], run[j + 1]);
      forall k | 0 <= k < |body|
        ensures InstEnters(body[k], blocks[j], body[k].id in ideal', run'[j], run'[j + 1])
      {
        assert InstEnters(body[k], blocks[j], body[k].id in ideal, run[j], run[j + 1]);
        IdWithin(body[k], n);
        ComputesFrame(body[k], n, body[k].id in ideal, run[j], run[j + 1], run'[j], run'[j + 1]);
      }
    }
  }

  lemma IdWithin(i: Inst, n: nat)
    requires Within(i, n)
    ensures i.id < n
  {}

  lemma RefinesItself(body: seq<Inst>, n: nat)
    requires Valid(body, n)
    ensures Refines(body, n, body, n, map[])
  {
    hide Computes, Valid, Executes;
    var none: map<nat, nat> := map[];
    forall ideal: set<nat>, blocks: seq<nat>, run: seq<Regs> | Executes(body, ideal, blocks, run)
      ensures Executes(body, ideal + none.Keys, blocks, SeenAll(run, none))
    {
      ExecutesFrame(body, n, ideal, ideal + none.Keys, blocks, run, SeenAll(run, none));
    }
    forall ideal: set<nat>, blocks: seq<nat>, run: seq<Regs> | Executes(body, ideal + none.Keys, blocks, run)
      ensures Shows(body, ideal, blocks, none, n, run, run)
    {
      ExecutesFrame(body, n, ideal + none.Keys, ideal, blocks, run, run);
    }
  }

  lemma RefinesStep(body0: seq<Inst>, n0: nat, body: seq<Inst>, n: nat, selects: map<nat, nat>, k: nat)
    requires Valid(body0, n0) && Refines(body0, n0, body, n, selects)
    requires k < |body| && body[k].op.Shift? && body[k].id < n0 && body[k].id !in selects
    ensures body[k].width >= 1
    ensures Refines(body0, n0, Wrapped(body, k, n), n + 3, selects[body[k].id := n + 2])
  {
    hide Wrapped, Executes, Valid, SoundFor, CompleteFor, Within;
    ValidAt(body, n, k);
    ShiftHasWidth(body[k], n);
    WrappedValid(body, k, n);
    StepSoundFor(body0, n0, body, n, selects, k);
    StepCompleteFor(body0, n0, body, n, selects, k);
  }

  /** What readers see when also the shift at k is read through its select. */
  function ReadAll(run: seq<Regs>, v: nat, s: nat): (r: seq<Regs>)
    ensures |r| == |run| && forall j :: 0 <= j < |run| ==> r[j] == Read(run[j], v, s)
  {
    seq(|run|, j requires 0 <= j < |run| => Read(run[j], v, s))
  }

  lemma StepSoundFor(body0: seq<Inst>, n0: nat, body: seq<Inst>, n: nat, selects: map<nat, nat>, k: nat)
    requires Valid(body0, n0) && Valid(body, n) && SelectsWithin(selects, n0, n) && SoundFor(body0, n0, body, selects)
    requires k < |body| && body[k].op.Shift? && body[k].width >= 1 && body[k].id < n0 && body[k].id !in selects
    ensures SoundFor(body0, n0, Wrapped(body, k, n), selects[body[k].id := n + 2])
  {
    hide Wrapped, Enters, Valid;
    var v := body[k].id;
    var selects' := selects[v := n + 2];
    forall ideal: set<nat>, blocks: seq<nat>, run: seq<Regs> |
      Pending(ideal, n0, selects') && Executes(Wrapped(body, k, n), ideal, blocks, run)
      ensures Executes(body0, ideal + selects'.Keys, blocks, SeenAll(run, selects'))
    {
      var read := ReadAll(run, v, n + 2);
      forall j | 0 <= j < |blocks| ensures Enters(body, blocks[j], ideal + {v}, read[j], read[j + 1]) {
        StepSound(body, k, n, blocks[j], ideal, run[j], run[j + 1]);
      }
      assert Pending(ideal + {v}, n0, selects) && Executes(body, ideal + {v}, blocks, read);
      ExecutesFrame(body0, n0, ideal + {v} + selects.Keys, ideal + selects'.Keys, blocks,
                    SeenAll(read, selects), SeenAll(run, selects'));
    }
  }

  /** The whole execution of the wrapped body that shows one of the body with the ideal shift. */
  lemma {:induction false} ShowRun(body: seq<Inst>, k: nat, n: nat, ideal: set<nat>, blocks: seq<nat>, run: seq<Regs>)
    returns (shown: seq<Regs>)
    requires Valid(body, n) && k < |body| && body[k].op.Shift? && body[k].width >= 1 && body[k].id !in ideal
    requires forall x :: x in ideal ==> x < n
    requires Executes(body, ideal + {body[k].id}, blocks, run)
    ensures Executes(Wrapped(body, k, n), ideal, blocks, shown) && |shown| == |run|
    ensures forall j :: 0 <= j < |run| ==> InStep(body[k], n, run[j], shown[j])
    decreases |blocks|
  {
    hide Wrapped, Enters, Valid, WithGuards;
    if blocks == [] {
      var e := run[0];
      shown := [x => if x == n + 2 then e(body[k].id) else e(x)];
    } else {
      var last := |blocks| - 1;
      var before := ShowRun(body, k, n, ideal, blocks[..last], run[..last + 1]);
      assert Enters(body, blocks[last], ideal + {body[k].id}, run[last], run[last + 1]);
      StepComplete(body, k, n, blocks[last], ideal, run[last], run[last + 1], before[last]);
      shown := before + [WithGuards(before[last], run[last + 1], body[k], n, blocks[last])];
      forall j | 0 <= j < |blocks| ensures Enters(Wrapped(body, k, n), blocks[j], ideal, shown[j], shown[j + 1]) {
        if j < last { assert blocks[..last][j] == blocks[j]; }
      }
    }
  }

  lemma StepCompleteFor(body0: seq<Inst>, n0: nat, body: seq<Inst>, n: nat, selects: map<nat, nat>, k: nat)
    requires Valid(body0, n0) && Valid(body, n) && SelectsWithin(selects, n0, n)
    requires CompleteFor(body0, n0, body, selects)
    requires k < |body| && body[k].op.Shift? && body[k].width >= 1 && body[k].id < n0 && body[k].id !in selects
    ensures CompleteFor(body0, n0, Wrapped(body, k, n), selects[body[k].id := n + 2])
  {
    hide Wrapped, Executes, Valid;
    var v := body[k].id;
    var selects' := selects[v := n + 2];
    forall ideal: set<nat>, blocks: seq<nat>, run0: seq<Regs> |
      Pending(ideal, n0, selects') && Executes(body0, ideal + selects'.Keys, blocks, run0)
      ensures exists run :: Shows(Wrapped(body, k, n), ideal, blocks, selects', n0, run, run0)
    {
      ExecutesFrame(body0, n0, ideal + selects'.Keys, ideal + {v} + selects.Keys, blocks, run0, run0);
      assert Pending(ideal + {v}, n0, selects);
      var run :| Shows(body, ideal + {v}, blocks, selects, n0, run, run0);
      var shown := ShowRun(body, k, n, ideal, blocks, run);
      forall j | 0 <= j < |shown| ensures SameBelow(n0, Seen(shown[j], selects'), run0[j]) {
        assert SameBelow(n0, Seen(run[j], selects), run0[j]) && InStep(body[k], n, run[j], shown[j]);
      }
      assert Shows(Wrapped(body, k, n), ideal, blocks, selects', n0, shown, run0);
    }
  }

  lemma {:induction false} RenameAllAppend(a: seq<Inst>, b: seq<Inst>, v: nat, s: nat)
    ensures RenameAll(a + b, v, s) == RenameAll(a, v, s) + RenameAll(b, v, s)
  {}

  /** Wrapping a shift leaves what follows it as it was, up to renamed operands. */
  predicate SameKind(a: Inst, b: Inst) {
    a.id == b.id && a.op.Shift? == b.op.Shift? && (a.op.Shift? ==> a.op.r.Reg? == b.op.r.Reg?)
  }

  predicate SameRest(body0: seq<Inst>, j: nat, body: seq<Inst>, k: nat) {
    k <= |body| && j + |body| == |body0| + k && forall m :: k <= m < |body| ==> SameKind(body[m], body0[m - k + j])
  }

  lemma SameRestStep(body0: seq<Inst>, j: nat, body: seq<Inst>, k: nat, n: nat)
    requires k < |body| && SameRest(body0, j, body, k) && Within(body[k], n) && body[k].op.Shift?
    ensures SameRest(body0, j + 1, Wrapped(body, k, n), k + 1 + |Guarded(body[k], n)|)
  {
    hide Wrapped, Guarded;
    WrappedAt(body, k, n);
  }

  /** The shifts by a variable amount among the first j instructions. */
  ghost predicate AllWrapped(body0: seq<Inst>, j: nat, selects: map<nat, nat>)
    requires j <= |body0|
  {
    forall x :: x in selects <==> exists m :: 0 <= m < j && body0[m].id == x && Candidate(body0[m])
  }

  /** The guard as it is first inserted. */
  function Unlinked(i: Inst, next: nat): seq<Inst>
    requires i.op.Shift? && i.width >= 1
  {
    var ideal := if i.op.op == Sra then Reg(next + 1) else Constant(0);
    [Inst(next, i.block, 1, UgeOp(i.op.r, Constant(i.width)))]
    + (if i.op.op == Sra then [Inst(next + 1, i.block, i.width, Shift(Sra, i.op.l, Constant(i.width - 1)))] else [])
    + [Inst(next + 2, i.block, i.width, SelectOp(Reg(next), ideal, ideal))]
  }

  /** The select with its last operand set. */
  function Otherwise(select: Inst, o: Operand): Inst
    requires select.op.SelectOp?
  {
    select.(op := select.op.(y := o))
  }

  /** Replacing the uses and then the select's last operand turns it into the guard. */
  lemma LinkGuard(body: seq<Inst>, k: nat, next: nat)
    requires k < |body| && Within(body[k], next) && body[k].op.Shift?
    ensures var g := Unlinked(body[k], next); var v := body[k].id; var at := k + |g|;
            var all := RenameAll(body[..k + 1] + g + body[k + 1..], v, next + 2);
            && |g| == |Guarded(body[k], next)| && at < |all| && all[at].op.SelectOp?
            && all[at := Otherwise(all[at], Reg(v))] == Wrapped(body, k, next)
  {
    hide Within, Guarded, Unlinked, RenameInst, RenameAll;
    ShiftHasWidth(body[k], next);
    var g, v, s := Unlinked(body[k], next), body[k].id, next + 2;
    LinkUnlinked(body[k], next);
    var a, g', b := RenameAll(body[..k + 1], v, s), RenameAll(g, v, s), RenameAll(body[k + 1..], v, s);
    RenameAllAppend(body[..k + 1] + g, body[k + 1..], v, s);
    RenameAllAppend(body[..k + 1], g, v, s);
    UpdateMiddle(a, g', b, |g| - 1, Otherwise(g'[|g| - 1], Reg(v)));
  }

  lemma LinkUnlinked(i: Inst, next: nat)
    requires i.op.Shift? && i.width >= 1 && i.id < next
    ensures var g := RenameAll(Unlinked(i, next), i.id, next + 2);
            && |g| == |Guarded(i, next)| > 0 && g[|g| - 1].op.SelectOp?
            && g[|g| - 1 := Otherwise(g[|g| - 1], Reg(i.id))] == Guarded(i, next)
  {
    hide RenameAll;
  }

  lemma UpdateMiddle<T>(a: seq<T>, g: seq<T>, b: seq<T>, m: nat, x: T)
    requires m < |g|
    ensures (a + g + b)[|a| + m] == g[m] && (a + g + b)[|a| + m := x] == a + g[m := x] + b
  {}

  class IdealShift {
    var insts: seq<Inst>
    var next: nat

    constructor (insts: seq<Inst>, next: nat)
      ensures this.insts == insts && this.next == next
    {
      this.insts, this.next := insts, next;
    }

    method InsertBefore(at: nat, i: Inst)
      requires at <= |insts|
      modifies `insts
      ensures insts == old(insts)[..at] + [i] + old(insts)[at..]
    {
      insts := insts[..at] + [i] + insts[at..];
    }

    method ReplaceAllUsesWith(v: nat, s: nat)
      modifies `insts
      ensures insts == RenameAll(old(insts), v, s)
    {
      hide RenameAll, RenameInst;
      var k := 0;
      while k < |insts|
        invariant 0 <= k <= |insts| == |old(insts)|
        invariant forall m :: 0 <= m < k ==> insts[m] == RenameInst(old(insts)[m], v, s)
        invariant forall m :: k <= m < |insts| ==> insts[m] == old(insts)[m]
      {
        insts := insts[k := RenameInst(insts[k], v, s)];
        k := k + 1;
      }
    }

    method InsertGuard(k: nat) returns (inserted: nat)
      requires k < |insts| && Within(insts[k], next) && Candidate(insts[k])
      modifies this
      ensures insts == old(insts)[..k + 1] + Unlinked(old(insts)[k], old(next)) + old(insts)[k + 1..]
      ensures next == old(next) + 3 && inserted == |Unlinked(old(insts)[k], old(next))|
    {
      var i := insts[k];
      var n, l, r := i.width, i.op.l, i.op.r;
      var cond, signs, select := next, next + 1, next + 2;
      next := next + 3;
      InsertBefore(k + 1, Inst(cond, i.block, 1, UgeOp(r, Constant(n))));
      if i.op.op == Sra {
        InsertBefore(k + 2, Inst(signs, i.block, n, Shift(Sra, l, Constant(n - 1))));
        InsertBefore(k + 3, Inst(select, i.block, n, SelectOp(Reg(cond), Reg(signs), Reg(signs))));
        inserted := 3;
      } else {
        InsertBefore(k + 2, Inst(select, i.block, n, SelectOp(Reg(cond), Constant(0), Constant(0))));
        inserted := 2;
      }
    }

    /** The select is made with the ideal value on both sides; the shift becomes its last operand
        only after all other uses of the shift have been replaced. */
    method WrapShift(k: nat) returns (inserted: nat)
      requires k < |insts| && Within(insts[k], next) && Candidate(insts[k])
      modifies this
      ensures insts == Wrapped(old(insts), k, old(next)) && next == old(next) + 3
      ensures inserted == |Guarded(old(insts)[k], old(next))|
    {
      hide Unlinked, Guarded, Wrapped, Within, RenameAll, RenameInst;
      var v, s := insts[k].id, next + 2;
      LinkGuard(insts, k, next);
      inserted := InsertGuard(k);
      ReplaceAllUsesWith(v, s);
      insts := insts[k + inserted := Otherwise(insts[k + inserted], Reg(v))];
    }

    /** The rewritten function is the function with ideal shifts: each of its executions, around any
        loops, shows an execution through the same blocks in which every shift by a variable amount is
        ideal, and each of these is shown by one. */
    method RunOnFunction() returns (changed: bool, ghost selects: map<nat, nat>)
      requires Valid(insts, next)
      modifies this
      ensures Refines(old(insts), old(next), insts, next, selects)
      ensures AllWrapped(old(insts), |old(insts)|, selects)
      ensures forall m :: 0 <= m < |old(insts)| ==>
                var i := old(insts)[m]; i.id in selects <==> i.op.Shift? && i.op.r.Reg?
      ensures changed <==> selects != map[]
    {
      hide Executes, Wrapped, Valid, SoundFor, CompleteFor, Within, Guarded;
      ghost var body0, n0, j := insts, next, 0;
      changed, selects := false, map[];
      RefinesItself(insts, next);
      var k: nat := 0;
      while k < |insts|
        invariant j <= |body0| && SameRest(body0, j, insts, k)
        invariant Refines(body0, n0, insts, next, selects)
        invariant AllWrapped(body0, j, selects)
        invariant changed <==> selects != map[]
        decreases |insts| - k
      {
        var i := insts[k];
        if Candidate(i) {
          NotYetWrapped(body0, n0, j, selects);
          ValidAt(body0, n0, j);
          ValidAt(insts, next, k);
          RefinesStep(body0, n0, insts, next, selects, k);
          SameRestStep(body0, j, insts, k, next);
          selects := selects[i.id := next + 2];
          var inserted := WrapShift(k);
          k := k + inserted;
          changed := true;
        }
        k := k + 1;
        j := j + 1;
      }
      forall m | 0 <= m < |body0| ensures body0[m].id in selects <==> body0[m].op.Shift? && body0[m].op.r.Reg? {
        WrappedExactly(body0, n0, selects, m);
      }
    }
  }

  lemma WrappedExactly(body: seq<Inst>, n: nat, selects: map<nat, nat>, m: nat)
    requires Valid(body, n) && AllWrapped(body, |body|, selects) && m < |body|
    ensures body[m].id in selects <==> body[m].op.Shift? && body[m].op.r.Reg?
  {
    hide Within;
  }

  lemma ValidAt(body: seq<Inst>, n: nat, k: nat)
    requires Valid(body, n) && k < |body|
    ensures Within(body[k], n) && body[k].id < n
  {}

  lemma NotYetWrapped(body0: seq<Inst>, n0: nat, j: nat, selects: map<nat, nat>)
    requires Valid(body0, n0) && j < |body0| && AllWrapped(body0, j, selects)
    ensures body0[j].id !in selects
  {}
}
