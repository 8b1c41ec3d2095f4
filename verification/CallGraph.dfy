/** CallGraphPass: which functions a function pointer can hold, over all modules, and the callees
    of every call. */
module CallGraph {
  import opened FiniteSets

  type Id = string
  type FuncSet = set<nat>
  type FuncPtrMap = map<Id, FuncSet>

  /** The values findFunctions follows; it aborts on all others. */
  datatype Value =
    | Function(f: nat)
    | Cast(op: nat)
    | Phi(incoming: seq<nat>)
    | Select(ifTrue: nat, ifFalse: nat)
    | Argument(arg: Id)
    | Call(callee: nat)
    | IndirectCall
    | Load(id: Id)
    | Ignored

  datatype Inst =
    | Store(v: nat, isFuncPtr: bool, id: Id)
    | Return(v: nat, isFuncPtr: bool, f: nat)
    | CallSite(site: nat, called: nat, isAsmOrIntrinsic: bool, args: seq<(nat, bool)>)  // (value, is function pointer)
    | OtherInst

  datatype Func = Func(name: string, isDeclaration: bool)

  /** modules[m][f][i] is an instruction; ids are all the identifiers instructions can write to. */
  datatype Program = Program(
    values: seq<Value>, funcs: seq<Func>, definitions: map<string, nat>,
    argId: (nat, nat) -> Id, retId: nat -> Id,
    modules: seq<seq<seq<Inst>>>, ids: set<Id>)
  {
    function Next(v: nat): seq<nat>
      requires v < |values|
    {
      match values[v]
      case Cast(op) => [op]
      case Phi(incoming) => incoming
      case Select(t, f) => [t, f]
      case _ => []
    }

    predicate ValidInst(i: Inst) {
      match i
      case Store(v, _, id) => v < |values| && id in ids
      case Return(v, _, f) => v < |values| && retId(f) in ids
      case CallSite(_, v, _, args) =>
        && v < |values|
        && (forall j :: 0 <= j < |args| ==> args[j].0 < |values|)
        && (forall f, j :: 0 <= f < |funcs| && 0 <= j < |args| ==> argId(f, j) in ids)
      case OtherInst => true
    }

    ghost predicate Has(i: Inst) {
      exists m :: 0 <= m < |modules| && InModule(modules[m], i)
    }

    static predicate InModule(fs: seq<seq<Inst>>, i: Inst) {
      exists f :: 0 <= f < |fs| && i in fs[f]
    }

    predicate Valid() {
      && (forall v :: 0 <= v < |values| ==> forall u :: u in Next(v) ==> u < |values|)
      && (forall v :: 0 <= v < |values| && values[v].Function? ==> values[v].f < |funcs|)
      && (forall n :: n in definitions ==> definitions[n] < |funcs|)
      && (forall m :: 0 <= m < |modules| ==> ValidModule(modules[m]))
    }

    predicate ValidModule(m: seq<seq<Inst>>) {
      forall f :: 0 <= f < |m| ==> ValidBody(m[f])
    }

    predicate ValidBody(body: seq<Inst>) {
      forall k :: 0 <= k < |body| ==> ValidInst(body[k])
    }
  }

  function Lookup(m: FuncPtrMap, id: Id): FuncSet {
    if id in m then m[id] else {}
  }

  // ----- What a value can be

  /** Prefer the real definition to declarations. */
  function Real(p: Program, f: nat): nat
    requires f < |p.funcs|
  {
    if !p.funcs[f].isDeclaration then f
    else if p.funcs[f].name in p.definitions then p.definitions[p.funcs[f].name]
    else f
  }

  /** The functions a value stands for itself, not through its operands. */
  function Leaf(p: Program, m: FuncPtrMap, v: nat): FuncSet
    requires v < |p.values|
  {
    match p.values[v]
    case Function(f) => if f < |p.funcs| then {Real(p, f)} else {}
    case Argument(id) => Lookup(m, id)
    case Call(f) => Lookup(m, p.retId(f))
    case Load(id) => Lookup(m, id)
    case _ => {}
  }

  /** A chain of PHI, select and cast operands from v to w outside of avoid. */
  ghost predicate Chain(p: Program, avoid: set<nat>, v: nat, w: nat, path: seq<nat>) {
    && |path| > 0 && path[0] == v && path[|path| - 1] == w
    && (forall i :: 0 <= i < |path| ==> path[i] < |p.values| && path[i] !in avoid)
    && (forall i :: 0 < i < |path| ==> path[i] in p.Next(path[i - 1]))
  }

  ghost predicate Reaches(p: Program, avoid: set<nat>, v: nat, w: nat) {
    exists path :: Chain(p, avoid, v, w, path)
  }

  ghost function Found(p: Program, m: FuncPtrMap, avoid: set<nat>, v: nat): FuncSet {
    set w, f | 0 <= w < |p.values| && Reaches(p, avoid, v, w) && f in Leaf(p, m, w) :: f
  }

  /** All functions a value can be, given what the identifiers can be. */
  ghost function Resolve(p: Program, m: FuncPtrMap, v: nat): FuncSet {
    Found(p, m, {}, v)
  }

  lemma ReachesSelf(p: Program, avoid: set<nat>, v: nat)
    requires v < |p.values| && v !in avoid
    ensures Reaches(p, avoid, v, v)
  {
    assert Chain(p, avoid, v, v, [v]);
  }

  lemma ReachesStep(p: Program, avoid: set<nat>, v: nat, s: nat, w: nat)
    requires v < |p.values| && v !in avoid && s in p.Next(v) && Reaches(p, avoid + {v}, s, w)
    ensures Reaches(p, avoid, v, w)
  {
    var path :| Chain(p, avoid + {v}, s, w, path);
    assert Chain(p, avoid, v, w, [v] + path);
  }

  /** Whatever v reaches, other than itself, one of its operands reaches without going through v:
      cut the chain after its last visit to v. */
  lemma {:induction false} CutChain(p: Program, avoid: set<nat>, v: nat, x: nat, w: nat, path: seq<nat>)
    requires v < |p.values| && Chain(p, avoid, x, w, path) && w != v
    ensures Reaches(p, avoid + {v}, x, w) || exists s :: s in p.Next(v) && Reaches(p, avoid + {v}, s, w)
    decreases |path|
  {
    if |path| == 1 {
      assert Chain(p, avoid + {v}, x, w, path);
    } else {
      var y, rest := path[1], path[1..];
      assert Chain(p, avoid, y, w, rest);
      CutChain(p, avoid, v, y, w, rest);
      if x != v && Reaches(p, avoid + {v}, y, w) {
        var tail :| Chain(p, avoid + {v}, y, w, tail);
        assert Chain(p, avoid + {v}, x, w, [x] + tail);
      }
    }
  }

  lemma FoundSplit(p: Program, m: FuncPtrMap, avoid: set<nat>, v: nat)
    requires v < |p.values| && v !in avoid
    ensures forall f :: f in Found(p, m, avoid, v) <==>
              f in Leaf(p, m, v) || exists s :: s in p.Next(v) && f in Found(p, m, avoid + {v}, s)
  {
    forall f | f in Found(p, m, avoid, v)
      ensures f in Leaf(p, m, v) || exists s :: s in p.Next(v) && f in Found(p, m, avoid + {v}, s)
    {
      var w :| 0 <= w < |p.values| && Reaches(p, avoid, v, w) && f in Leaf(p, m, w);
      if w != v {
        var path :| Chain(p, avoid, v, w, path);
        CutChain(p, avoid, v, v, w, path);
        NotFromAvoided(p, avoid + {v}, v, w);
        var s :| s in p.Next(v) && Reaches(p, avoid + {v}, s, w);
        assert f in Found(p, m, avoid + {v}, s);
      }
    }
    ReachesSelf(p, avoid, v);
    forall s, f | s in p.Next(v) && f in Found(p, m, avoid + {v}, s)
      ensures f in Found(p, m, avoid, v)
    {
      var w :| 0 <= w < |p.values| && Reaches(p, avoid + {v}, s, w) && f in Leaf(p, m, w);
      ReachesStep(p, avoid, v, s, w);
    }
  }

  lemma NotFromAvoided(p: Program, avoid: set<nat>, v: nat, w: nat)
    requires v in avoid
    ensures !Reaches(p, avoid, v, w)
  {
  }

  /** An operand's functions are functions of the value. */
  lemma OperandFound(p: Program, m: FuncPtrMap, v: nat, s: nat)
    requires v < |p.values| && s in p.Next(v)
    ensures Resolve(p, m, s) <= Resolve(p, m, v)
  {
    forall f | f in Resolve(p, m, s) ensures f in Resolve(p, m, v) {
      var w :| 0 <= w < |p.values| && Reaches(p, {}, s, w) && f in Leaf(p, m, w);
      var path :| Chain(p, {}, s, w, path);
      assert Chain(p, {}, v, w, [v] + path);
    }
  }

  lemma FewerFound(p: Program, m: FuncPtrMap, avoid: set<nat>, s: nat)
    ensures Found(p, m, avoid, s) <= Resolve(p, m, s)
  {
    forall w | Reaches(p, avoid, s, w) ensures Reaches(p, {}, s, w) {
      var path :| Chain(p, avoid, s, w, path);
      assert Chain(p, {}, s, w, path);
    }
  }

  /** A value is what it is itself, or one of its operands. */
  lemma ResolveSplit(p: Program, m: FuncPtrMap, v: nat)
    requires v < |p.values|
    ensures forall f :: f in Resolve(p, m, v) <==>
              f in Leaf(p, m, v) || exists s :: s in p.Next(v) && f in Resolve(p, m, s)
  {
    hide Found, Leaf;
    FoundSplit(p, m, {}, v);
    forall s | s in p.Next(v) ensures Found(p, m, {} + {v}, s) <= Resolve(p, m, s) <= Resolve(p, m, v) {
      FewerFound(p, m, {} + {v}, s);
      OperandFound(p, m, v, s);
    }
  }

  /** What every kind of value resolves to: a function is its definition if it has one, an argument and
      a load are what their identifier holds, a direct call is what its callee returns, and casts, PHIs
      and selects are what their operands are. */
  lemma ResolveMeaning(p: Program, m: FuncPtrMap, v: nat)
    requires p.Valid() && v < |p.values|
    ensures match p.values[v]
            case Function(f) =>
              var known := p.funcs[f].isDeclaration && p.funcs[f].name in p.definitions;
              Resolve(p, m, v) == if known then {p.definitions[p.funcs[f].name]} else {f}
            case Cast(op) => Resolve(p, m, v) == Resolve(p, m, op)
            case Phi(incoming) =>
              forall f :: f in Resolve(p, m, v) <==> exists s :: s in incoming && f in Resolve(p, m, s)
            case Select(ifTrue, ifFalse) => Resolve(p, m, v) == Resolve(p, m, ifTrue) + Resolve(p, m, ifFalse)
            case Argument(id) => Resolve(p, m, v) == Lookup(m, id)
            case Call(f) => Resolve(p, m, v) == Lookup(m, p.retId(f))
            case IndirectCall => Resolve(p, m, v) == {}
            case Load(id) => Resolve(p, m, v) == Lookup(m, id)
            case Ignored => Resolve(p, m, v) == {}
  {
    hide Resolve;
    ResolveSplit(p, m, v);
  }

  // ----- Solutions of the propagation rules

  ghost predicate Below(a: FuncPtrMap, b: FuncPtrMap) {
    forall id :: Lookup(a, id) <= Lookup(b, id)
  }

  ghost predicate Same(a: FuncPtrMap, b: FuncPtrMap) {
    forall id :: Lookup(a, id) == Lookup(b, id)
  }

  /** One instruction asks for nothing more: stores, returns and arguments of possible callees. */
  ghost predicate Satisfied(p: Program, m: FuncPtrMap, i: Inst) {
    match i
    case Store(v, isFuncPtr, id) => isFuncPtr && id != "" ==> Resolve(p, m, v) <= Lookup(m, id)
    case Return(v, isFuncPtr, f) => isFuncPtr ==> Resolve(p, m, v) <= Lookup(m, p.retId(f))
    case CallSite(_, called, skip, args) =>
      !skip ==> forall f, j :: f in Resolve(p, m, called) && 0 <= j < |args| && args[j].1 ==>
                  Resolve(p, m, args[j].0) <= Lookup(m, p.argId(f, j))
    case OtherInst => true
  }

  ghost predicate Solution(p: Program, init: FuncPtrMap, m: FuncPtrMap) {
    Below(init, m) && forall i :: p.Has(i) ==> Satisfied(p, m, i)
  }

  ghost predicate LeastSolution(p: Program, init: FuncPtrMap, m: FuncPtrMap) {
    Solution(p, init, m) && forall s :: Solution(p, init, s) ==> Below(m, s)
  }

  lemma ResolveMonotone(p: Program, a: FuncPtrMap, b: FuncPtrMap, v: nat)
    requires Below(a, b)
    ensures Resolve(p, a, v) <= Resolve(p, b, v)
  {
    forall w, f | 0 <= w < |p.values| && f in Leaf(p, a, w)
      ensures f in Leaf(p, b, w)
    {
    }
  }

  /** The result does not depend on the order of modules, functions and instructions: two programs
      with the same instructions have the same least solution. */
  lemma OrderIndependent(p: Program, q: Program, init: FuncPtrMap, a: FuncPtrMap, b: FuncPtrMap)
    requires q == p.(modules := q.modules) && forall i :: p.Has(i) <==> q.Has(i)
    requires LeastSolution(p, init, a) && LeastSolution(q, init, b)
    ensures Same(a, b)
  {
    SolutionTransfers(p, q, init, b);
    SolutionTransfers(q, p, init, a);
    forall id
      ensures Lookup(a, id) == Lookup(b, id)
    {
      assert Lookup(a, id) <= Lookup(b, id) && Lookup(b, id) <= Lookup(a, id);
    }
  }

  lemma SolutionTransfers(p: Program, q: Program, init: FuncPtrMap, m: FuncPtrMap)
    requires q == p.(modules := q.modules) && (forall i :: p.Has(i) <==> q.Has(i)) && Solution(q, init, m)
    ensures Solution(p, init, m)
  {
    forall v
      ensures Resolve(p, m, v) == Resolve(q, m, v)
    {
      SameFound(p, q, m, v);
    }
    forall i | p.Has(i)
      ensures Satisfied(p, m, i)
    {
      assert q.Has(i) && Satisfied(q, m, i);
    }
  }

  lemma SameFound(p: Program, q: Program, m: FuncPtrMap, v: nat)
    requires q == p.(modules := q.modules)
    ensures Resolve(p, m, v) == Resolve(q, m, v)
  {
    assert forall w :: 0 <= w < |p.values| ==> Leaf(p, m, w) == Leaf(q, m, w);
    assert forall w :: 0 <= w < |p.values| ==> p.Next(w) == q.Next(w);
    forall w
      ensures Reaches(p, {}, v, w) <==> Reaches(q, {}, v, w)
    {
      if path :| Chain(p, {}, v, w, path) {
        assert Chain(q, {}, v, w, path);
      }
      if path :| Chain(q, {}, v, w, path) {
        assert Chain(p, {}, v, w, path);
      }
    }
  }

  // ----- The flow of functions, rule by rule

  datatype Node = Val(v: nat) | Glob(id: Id)

  /** f flows to a value or an identifier: from the initial facts, by a store or return of a function
      pointer, or from an argument of a call to the parameter of a function that the called value can
      be. */
  least predicate Flows(p: Program, init: FuncPtrMap, n: Node, f: nat) {
    match n
    case Val(v) =>
      v < |p.values| &&
      (match p.values[v]
       case Function(g) =>
         g < |p.funcs| &&
         f == if p.funcs[g].isDeclaration && p.funcs[g].name in p.definitions then p.definitions[p.funcs[g].name] else g
       case Cast(op) => Flows(p, init, Val(op), f)
       case Phi(incoming) => exists s :: s in incoming && Flows(p, init, Val(s), f)
       case Select(ifTrue, ifFalse) => Flows(p, init, Val(ifTrue), f) || Flows(p, init, Val(ifFalse), f)
       case Argument(id) => Flows(p, init, Glob(id), f)
       case Call(g) => Flows(p, init, Glob(p.retId(g)), f)
       case IndirectCall => false
       case Load(id) => Flows(p, init, Glob(id), f)
       case Ignored => false)
    case Glob(id) =>
      || f in Lookup(init, id)
      || (exists v :: id != "" && p.Has(Store(v, true, id)) && Flows(p, init, Val(v), f))
      || (exists v, g :: p.Has(Return(v, true, g)) && p.retId(g) == id && Flows(p, init, Val(v), f))
      || (exists i, g, j: nat ::
            && Passes(p, i, g, j, id)
            && Flows(p, init, Val(i.called), g) && Flows(p, init, Val(i.args[j].0), f))
  }

  /** Argument j of the call is a function pointer, and id is that parameter of g. */
  ghost predicate Passes(p: Program, i: Inst, g: nat, j: nat, id: Id) {
    p.Has(i) && i.CallSite? && !i.isAsmOrIntrinsic && j < |i.args| && i.args[j].1 && p.argId(g, j) == id
  }

  ghost predicate At(p: Program, m: FuncPtrMap, n: Node, f: nat) {
    match n
    case Val(v) => f in Resolve(p, m, v)
    case Glob(id) => f in Lookup(m, id)
  }

  lemma HasValid(p: Program, i: Inst)
    requires p.Valid() && p.Has(i)
    ensures p.ValidInst(i)
  {
    var m :| 0 <= m < |p.modules| && Program.InModule(p.modules[m], i);
    var f :| 0 <= f < |p.modules[m]| && i in p.modules[m][f];
    var k :| 0 <= k < |p.modules[m][f]| && p.modules[m][f][k] == i;
    assert p.ValidModule(p.modules[m]) && p.ValidBody(p.modules[m][f]);
  }

  lemma RulesFound(p: Program, init: FuncPtrMap, m: FuncPtrMap, id: Id, f: nat)
    requires Solution(p, init, m)
    ensures f in Lookup(init, id) ==> f in Lookup(m, id)
    ensures forall v :: id != "" && p.Has(Store(v, true, id)) && f in Resolve(p, m, v) ==> f in Lookup(m, id)
    ensures forall v, g :: p.Has(Return(v, true, g)) && p.retId(g) == id && f in Resolve(p, m, v) ==> f in Lookup(m, id)
    ensures forall i, g, j: nat ::
              Passes(p, i, g, j, id) && g in Resolve(p, m, i.called) && f in Resolve(p, m, i.args[j].0) ==>
                f in Lookup(m, id)
  {
    hide Resolve;
    forall v | id != "" && p.Has(Store(v, true, id)) && f in Resolve(p, m, v) ensures f in Lookup(m, id) {
      assert Satisfied(p, m, Store(v, true, id));
    }
    forall v, g | p.Has(Return(v, true, g)) && p.retId(g) == id && f in Resolve(p, m, v) ensures f in Lookup(m, id) {
      assert Satisfied(p, m, Return(v, true, g));
    }
  }

  /** Every solution has at least what flows. */
  least lemma FlowsIsFound(p: Program, init: FuncPtrMap, m: FuncPtrMap, n: Node, f: nat)
    requires Flows(p, init, n, f) && p.Valid() && Solution(p, init, m)
    ensures At(p, m, n, f)
  {
    hide Resolve, Solution, p.Valid, p.Has;
    match n {
      case Val(v) =>
        ResolveMeaning(p, m, v);
        match p.values[v] {
          case Cast(op) => FlowsIsFound(p, init, m, Val(op), f);
          case Phi(incoming) =>
            var s :| s in incoming && Flows#[_k - 1](p, init, Val(s), f);
            FlowsIsFound(p, init, m, Val(s), f);
          case Select(ifTrue, ifFalse) =>
            if Flows#[_k - 1](p, init, Val(ifTrue), f) {
              FlowsIsFound(p, init, m, Val(ifTrue), f);
            } else {
              FlowsIsFound(p, init, m, Val(ifFalse), f);
            }
          case Argument(id) => FlowsIsFound(p, init, m, Glob(id), f);
          case Call(g) => FlowsIsFound(p, init, m, Glob(p.retId(g)), f);
          case Load(id) => FlowsIsFound(p, init, m, Glob(id), f);
          case _ =>
        }
      case Glob(id) =>
        RulesFound(p, init, m, id, f);
        if f in Lookup(init, id) {
        } else if v :| id != "" && p.Has(Store(v, true, id)) && Flows#[_k - 1](p, init, Val(v), f) {
          FlowsIsFound(p, init, m, Val(v), f);
        } else if v, g :| p.Has(Return(v, true, g)) && p.retId(g) == id && Flows#[_k - 1](p, init, Val(v), f) {
          FlowsIsFound(p, init, m, Val(v), f);
        } else {
          var i, g, j: nat :| Passes(p, i, g, j, id) && Flows#[_k - 1](p, init, Val(i.called), g)
                              && Flows#[_k - 1](p, init, Val(i.args[j].0), f);
          FlowsIsFound(p, init, m, Val(i.called), g);
          FlowsIsFound(p, init, m, Val(i.args[j].0), f);
        }
    }
  }

  /** The map of what flows. */
  ghost function FlowMap(p: Program, init: FuncPtrMap): FuncPtrMap {
    map id | id in p.ids :: set f | f in Numbers(|p.funcs|) && Flows(p, init, Glob(id), f)
  }

  /** What a chain of operands finds in that map flows to the value at its start. */
  lemma {:induction false} ChainFlows(p: Program, init: FuncPtrMap, v: nat, w: nat, path: seq<nat>, f: nat)
    requires p.Valid() && Chain(p, {}, v, w, path) && f in Leaf(p, FlowMap(p, init), w)
    ensures Flows(p, init, Val(v), f)
    decreases |path|
  {
    if |path| > 1 {
      assert Chain(p, {}, path[1], w, path[1..]);
      ChainFlows(p, init, path[1], w, path[1..], f);
      assert path[1] in p.Next(v);
    }
  }

  lemma ResolvedFlows(p: Program, init: FuncPtrMap, v: nat, f: nat)
    requires p.Valid() && f in Resolve(p, FlowMap(p, init), v)
    ensures Flows(p, init, Val(v), f)
  {
    hide FlowMap, Flows, Leaf, p.Valid;
    var w :| 0 <= w < |p.values| && Reaches(p, {}, v, w) && f in Leaf(p, FlowMap(p, init), w);
    var path :| Chain(p, {}, v, w, path);
    ChainFlows(p, init, v, w, path, f);
  }

  lemma FlowMapIsSolution(p: Program, init: FuncPtrMap)
    requires p.Valid() && Bounded(p, init)
    ensures Solution(p, init, FlowMap(p, init))
  {
    hide Resolve, p.Valid;
    var s := FlowMap(p, init);
    assert Bounded(p, s);
    assert Below(init, s) by {
      forall id, f | f in Lookup(init, id) ensures f in Lookup(s, id) { assert Flows(p, init, Glob(id), f); }
    }
    forall v, f | f in Resolve(p, s, v) ensures Flows(p, init, Val(v), f) && f < |p.funcs| {
      ResolvedFlows(p, init, v, f);
      ResolveBounded(p, s, v);
    }
    forall i | p.Has(i) ensures Satisfied(p, s, i) {
      HasValid(p, i);
      match i {
        case CallSite(_, called, skip, args) =>
          forall g, j | !skip && g in Resolve(p, s, called) && 0 <= j < |args| && args[j].1
            ensures Resolve(p, s, args[j].0) <= Lookup(s, p.argId(g, j))
          {
            assert Passes(p, i, g, j, p.argId(g, j));
          }
        case _ =>
      }
    }
  }

  /** The least solution is what flows, neither more nor less. */
  lemma LeastIsFlow(p: Program, init: FuncPtrMap, m: FuncPtrMap)
    requires p.Valid() && Bounded(p, init) && LeastSolution(p, init, m)
    ensures forall id, f :: f in Lookup(m, id) <==> Flows(p, init, Glob(id), f)
    ensures forall v, f :: f in Resolve(p, m, v) <==> Flows(p, init, Val(v), f)
  {
    hide Resolve, Flows, p.Valid;
    var s := FlowMap(p, init);
    FlowMapIsSolution(p, init);
    assert Below(m, s);
    forall n, f | Flows(p, init, n, f) ensures At(p, m, n, f) {
      FlowsIsFound(p, init, m, n, f);
    }
    forall id, f | f in Lookup(m, id) ensures Flows(p, init, Glob(id), f) {
      assert f in Lookup(s, id);
    }
    forall v, f | f in Resolve(p, m, v) ensures Flows(p, init, Val(v), f) {
      ResolveMonotone(p, m, s, v);
      ResolvedFlows(p, init, v, f);
    }
    forall v, f | Flows(p, init, Val(v), f) ensures f in Resolve(p, m, v) { assert At(p, m, Val(v), f); }
    forall id, f | Flows(p, init, Glob(id), f) ensures f in Lookup(m, id) { assert At(p, m, Glob(id), f); }
  }

  // ----- Growth

  /** Everything recorded is about an identifier and a function of the program. */
  ghost predicate Bounded(p: Program, m: FuncPtrMap) {
    forall id, f :: f in Lookup(m, id) ==> id in p.ids && f < |p.funcs|
  }

  function Facts(m: FuncPtrMap): set<(Id, nat)> {
    set id, f | id in m && f in m[id] :: (id, f)
  }

  function AllFacts(p: Program): set<(Id, nat)> {
    set id, f | id in p.ids && f in Numbers(|p.funcs|) :: (id, f)
  }

  lemma FactsBounded(p: Program, m: FuncPtrMap)
    requires Bounded(p, m)
    ensures Facts(m) <= AllFacts(p)
  {
    forall id, f | (id, f) in Facts(m)
      ensures (id, f) in AllFacts(p)
    {
      assert f in Lookup(m, id);
    }
  }

  lemma FactsGrow(a: FuncPtrMap, b: FuncPtrMap)
    requires Below(a, b)
    ensures Facts(a) <= Facts(b)
    ensures !Same(a, b) ==> Facts(a) != Facts(b)
  {
    forall id, f | (id, f) in Facts(a)
      ensures (id, f) in Facts(b)
    {
      assert f in Lookup(a, id) && f in Lookup(b, id);
    }
    if !Same(a, b) {
      var id :| Lookup(a, id) != Lookup(b, id);
      var f :| f in Lookup(b, id) && f !in Lookup(a, id);
      assert (id, f) in Facts(b) && (id, f) !in Facts(a);
    }
  }

  /** The part of a sweep's progress that the loops of the pass terminate by. */
  ghost function Remaining(p: Program, m: FuncPtrMap): nat
    requires Bounded(p, m)
  {
    FactsBounded(p, m);
    CardinalityBelow(Facts(m), AllFacts(p));
    |AllFacts(p)| - |Facts(m)|
  }

  lemma RemainingShrinks(p: Program, a: FuncPtrMap, b: FuncPtrMap)
    requires Bounded(p, a) && Bounded(p, b) && Below(a, b)
    ensures Remaining(p, b) <= Remaining(p, a)
    ensures !Same(a, b) ==> Remaining(p, b) < Remaining(p, a)
  {
    FactsGrow(a, b);
    CardinalityBelow(Facts(a), Facts(b));
  }

  lemma ResolveBounded(p: Program, m: FuncPtrMap, v: nat)
    requires p.Valid() && Bounded(p, m)
    ensures forall f :: f in Resolve(p, m, v) ==> f < |p.funcs|
  {
    forall f | f in Resolve(p, m, v)
      ensures f < |p.funcs|
    {
      var w :| 0 <= w < |p.values| && Reaches(p, {}, v, w) && f in Leaf(p, m, w);
      LeafBounded(p, m, w, f);
    }
  }

  lemma LeafBounded(p: Program, m: FuncPtrMap, w: nat, f: nat)
    requires p.Valid() && Bounded(p, m) && w < |p.values| && f in Leaf(p, m, w)
    ensures f < |p.funcs|
  {
  }

  lemma SameResolve(p: Program, a: FuncPtrMap, b: FuncPtrMap)
    requires Same(a, b)
    ensures forall v :: Resolve(p, a, v) == Resolve(p, b, v)
  {
    assert Below(a, b) && Below(b, a);
    forall v
      ensures Resolve(p, a, v) == Resolve(p, b, v)
    {
      ResolveMonotone(p, a, b, v);
      ResolveMonotone(p, b, a, v);
    }
  }

  /** Two growing steps: the whole changes something exactly when one of them does. */
  lemma Grown(a: FuncPtrMap, b: FuncPtrMap, c: FuncPtrMap)
    requires Below(a, b) && Below(b, c)
    ensures Below(a, c) && (Same(a, c) <==> Same(a, b) && Same(b, c))
  {
    forall id
      ensures Lookup(a, id) <= Lookup(b, id) <= Lookup(c, id)
    {
    }
  }

  lemma SatisfiedSame(p: Program, a: FuncPtrMap, b: FuncPtrMap, i: Inst)
    requires Same(a, b) && Satisfied(p, a, i)
    ensures Satisfied(p, b, i)
  {
    SameResolve(p, a, b);
    match i {
      case Store(_, _, id) => assert Lookup(a, id) == Lookup(b, id);
      case Return(_, _, f) => assert Lookup(a, p.retId(f)) == Lookup(b, p.retId(f));
      case CallSite(_, called, _, args) =>
        forall f, j | f in Resolve(p, b, called) && 0 <= j < |args| && args[j].1 && !i.isAsmOrIntrinsic
          ensures Resolve(p, b, args[j].0) <= Lookup(b, p.argId(f, j))
        {
          assert Lookup(a, p.argId(f, j)) == Lookup(b, p.argId(f, j));
        }
      case OtherInst =>
    }
  }

  // ----- The pass

  class CallGraphPass {
    const p: Program
    var FuncPtrs: FuncPtrMap
    var Callees: map<nat, FuncSet>

    constructor (p: Program, initializers: FuncPtrMap)
      ensures this.p == p && FuncPtrs == initializers && Callees == map[]
    {
      this.p, FuncPtrs, Callees := p, initializers, map[];
    }

    /** findFunctions: the visited set is copied for every path. */
    method FindFunctions(v: nat, s: FuncSet, visited: set<nat>) returns (s': FuncSet, changed: bool)
      requires p.Valid() && v < |p.values|
      ensures s' == s + Found(p, FuncPtrs, visited, v)
      ensures changed <==> s' != s
      decreases Numbers(|p.values|) - visited, 0
    {
      if v in visited {
        forall w
          ensures !Reaches(p, visited, v, w)
        {
          NotFromAvoided(p, visited, v, w);
        }
        return s, false;
      }
      FoundSplit(p, FuncPtrs, visited, v);
      match p.values[v] {
        case Cast(op) => s', changed := FindInOperands(v, [op], s, visited);
        case Phi(incoming) => s', changed := FindInOperands(v, incoming, s, visited);
        case Select(t, f) => s', changed := FindInOperands(v, [t, f], s, visited);
        case _ =>
          s' := s + Leaf(p, FuncPtrs, v);
          changed := s' != s;
      }
    }

    method FindInOperands(v: nat, ops: seq<nat>, s: FuncSet, visited: set<nat>) returns (s': FuncSet, changed: bool)
      requires p.Valid() && v < |p.values| && v !in visited && ops == p.Next(v)
      ensures forall f :: f in s' <==> f in s || exists u :: u in ops && f in Found(p, FuncPtrs, visited + {v}, u)
      ensures changed <==> s' != s
      decreases Numbers(|p.values|) - (visited + {v}), 1
    {
      s', changed := s, false;
      var i := 0;
      while i < |ops|
        invariant 0 <= i <= |ops|
        invariant s <= s' && (changed <==> s' != s)
        invariant forall f :: f in s' <==>
                    f in s || exists u :: u in ops[..i] && f in Found(p, FuncPtrs, visited + {v}, u)
      {
        assert ops[i] in p.Next(v);
        var grew;
        ghost var before := s';
        s', grew := FindFunctions(ops[i], s', visited + {v});
        changed := changed || grew;
        assert ops[..i + 1] == ops[..i] + [ops[i]];
        assert forall u :: u in ops[..i + 1] <==> u in ops[..i] || u == ops[i];
        i := i + 1;
      }
      assert ops[..|ops|] == ops;
    }

    /** mergeFuncSet into the entry of an identifier. */
    method Merge(id: Id, fs: FuncSet) returns (changed: bool)
      modifies `FuncPtrs
      ensures FuncPtrs == old(FuncPtrs)[id := Lookup(old(FuncPtrs), id) + fs]
      ensures changed <==> !(fs <= Lookup(old(FuncPtrs), id))
    {
      var s := Lookup(FuncPtrs, id);
      changed := !(fs <= s);
      FuncPtrs := FuncPtrs[id := s + fs];
    }

    /** What running an instruction, function or module does: it only adds what every solution above
        the present state has, and it reports whether it added anything. */
    ghost predicate Advances(before: FuncPtrMap, changed: bool, sols: iset<FuncPtrMap>)
      reads this
    {
      && Bounded(p, FuncPtrs) && Below(before, FuncPtrs)
      && (changed <==> !Same(before, FuncPtrs))
      && forall s :: s in sols ==> Below(FuncPtrs, s)
    }

    ghost predicate Ready(sols: iset<FuncPtrMap>)
      reads this
    {
      p.Valid() && Bounded(p, FuncPtrs) && forall s :: s in sols ==> Below(FuncPtrs, s)
    }

    method RunOnInst(i: Inst, ghost sols: iset<FuncPtrMap>) returns (changed: bool)
      requires Ready(sols) && p.ValidInst(i) && forall s :: s in sols ==> Satisfied(p, s, i)
      modifies `FuncPtrs
      ensures Advances(old(FuncPtrs), changed, sols)
      ensures !changed ==> Satisfied(p, FuncPtrs, i)
    {
      changed := false;
      match i {
        case Store(v, isFuncPtr, id) =>
          if isFuncPtr && id != "" {
            changed := Propagate(v, id, sols);
          }
        case Return(v, isFuncPtr, f) =>
          if isFuncPtr {
            changed := Propagate(v, p.retId(f), sols);
          }
        case CallSite(_, called, skip, args) =>
          if !skip {
            changed := RunOnCall(i, sols);
          }
        case OtherInst =>
      }
    }

    /** findFunctions into the entry of an identifier; the entry is itself the set that grows. */
    method Propagate(v: nat, id: Id, ghost sols: iset<FuncPtrMap>) returns (changed: bool)
      requires Ready(sols) && v < |p.values| && id in p.ids
      requires forall s :: s in sols ==> Resolve(p, s, v) <= Lookup(s, id)
      modifies `FuncPtrs
      ensures Advances(old(FuncPtrs), changed, sols)
      ensures !changed ==> Resolve(p, FuncPtrs, v) <= Lookup(FuncPtrs, id)
    {
      ghost var before := FuncPtrs;
      var s := Lookup(FuncPtrs, id);
      var s';
      s', changed := FindFunctions(v, s, {});
      ResolveBounded(p, FuncPtrs, v);
      forall sol | sol in sols
        ensures s' <= Lookup(sol, id)
      {
        ResolveMonotone(p, FuncPtrs, sol, v);
        assert Lookup(FuncPtrs, id) <= Lookup(sol, id);
      }
      FuncPtrs := FuncPtrs[id := s'];
      Updated(before, id, s', sols);
      if !changed {
        assert Same(before, FuncPtrs);
        assert Below(FuncPtrs, before);
        ResolveMonotone(p, FuncPtrs, before, v);
      }
    }

    /** Growing one entry within every solution. */
    lemma Updated(before: FuncPtrMap, id: Id, s: FuncSet, sols: iset<FuncPtrMap>)
      requires FuncPtrs == before[id := s] && Lookup(before, id) <= s
      requires Bounded(p, before) && id in p.ids && forall f :: f in s ==> f < |p.funcs|
      requires forall sol :: sol in sols ==> Below(before, sol) && s <= Lookup(sol, id)
      ensures Advances(before, s != Lookup(before, id), sols)
    {
      assert forall j :: Lookup(FuncPtrs, j) == if j == id then s else Lookup(before, j);
      if s != Lookup(before, id) {
        assert Lookup(before, id) != Lookup(FuncPtrs, id);
      }
    }

    method RunOnCall(i: Inst, ghost sols: iset<FuncPtrMap>) returns (changed: bool)
      requires Ready(sols) && i.CallSite? && !i.isAsmOrIntrinsic && p.ValidInst(i)
      requires forall s :: s in sols ==> Satisfied(p, s, i)
      modifies `FuncPtrs
      ensures Advances(old(FuncPtrs), changed, sols)
      ensures !changed ==> Satisfied(p, FuncPtrs, i)
    {
      hide Found, Facts;
      changed := false;
      // Might be an indirect call: find all possible callees.
      var fs, any := FindFunctions(i.called, {}, {});
      if !any {
        return;
      }
      assert fs == Resolve(p, FuncPtrs, i.called);
      ResolveBounded(p, FuncPtrs, i.called);
      assert forall f :: f in fs ==> f < |p.funcs|;
      ghost var before := FuncPtrs;
      forall s | s in sols
        ensures fs <= Resolve(p, s, i.called)
      {
        ResolveMonotone(p, FuncPtrs, s, i.called);
      }
      var no := 0;
      while no < |i.args|
        invariant 0 <= no <= |i.args|
        invariant Advances(before, changed, sols)
        invariant !changed ==> ArgsSatisfied(FuncPtrs, fs, i.args, no)
      {
        if i.args[no].1 {
          ghost var mid := FuncPtrs;
          var c := RunOnArgument(i, no, fs, sols);
          Grown(before, mid, FuncPtrs);
          if !changed && !c {
            ArgsSame(mid, FuncPtrs, fs, i.args, no);
          }
          changed := changed || c;
        }
        no := no + 1;
      }
      if !changed {
        assert Below(FuncPtrs, before) && Below(before, FuncPtrs);
        ResolveMonotone(p, FuncPtrs, before, i.called);
      }
    }

    /** Add the functions of one argument to the parameter of every possible callee. */
    method RunOnArgument(i: Inst, no: nat, fs: FuncSet, ghost sols: iset<FuncPtrMap>) returns (changed: bool)
      requires Ready(sols) && i.CallSite? && !i.isAsmOrIntrinsic && p.ValidInst(i)
      requires no < |i.args| && i.args[no].1 && forall f :: f in fs ==> f < |p.funcs|
      requires forall s :: s in sols ==> Satisfied(p, s, i) && fs <= Resolve(p, s, i.called)
      modifies `FuncPtrs
      ensures Advances(old(FuncPtrs), changed, sols)
      ensures !changed ==>
                forall f :: f in fs ==> Resolve(p, FuncPtrs, i.args[no].0) <= Lookup(FuncPtrs, p.argId(f, no))
    {
      changed := false;
      ghost var before := FuncPtrs;
      var vs, any := FindFunctions(i.args[no].0, {}, {});
      if !any {
        return;
      }
      ResolveBounded(p, FuncPtrs, i.args[no].0);
      forall s, f | s in sols && f in fs
        ensures vs <= Lookup(s, p.argId(f, no))
      {
        ResolveMonotone(p, FuncPtrs, s, i.args[no].0);
      }
      var rest := fs;
      while rest != {}
        invariant rest <= fs && Advances(before, changed, sols)
        invariant forall f :: f in fs - rest ==> vs <= Lookup(FuncPtrs, p.argId(f, no))
        decreases rest
      {
        var f :| f in rest;
        var id := p.argId(f, no);
        ghost var mid := FuncPtrs;
        var c := Merge(id, vs);
        Updated(mid, id, Lookup(mid, id) + vs, sols);
        Grown(before, mid, FuncPtrs);
        changed := changed || c;
        rest := rest - {f};
      }
      if !changed {
        SameResolve(p, before, FuncPtrs);
      }
    }

    lemma ArgsSame(a: FuncPtrMap, b: FuncPtrMap, fs: FuncSet, args: seq<(nat, bool)>, n: nat)
      requires Same(a, b) && ArgsSatisfied(a, fs, args, n)
      ensures ArgsSatisfied(b, fs, args, n)
    {
      SameResolve(p, a, b);
      forall f, j | f in fs && 0 <= j < n && j < |args| && args[j].1
        ensures Resolve(p, b, args[j].0) <= Lookup(b, p.argId(f, j))
      {
        assert Lookup(a, p.argId(f, j)) == Lookup(b, p.argId(f, j));
      }
    }

    ghost predicate ArgsSatisfied(m: FuncPtrMap, fs: FuncSet, args: seq<(nat, bool)>, n: nat) {
      forall f, j :: f in fs && 0 <= j < n && j < |args| && args[j].1 ==>
        Resolve(p, m, args[j].0) <= Lookup(m, p.argId(f, j))
    }

    /** The instructions before k are satisfied. */
    ghost predicate BodySatisfied(m: FuncPtrMap, body: seq<Inst>, k: nat) {
      forall i :: 0 <= i < k && i < |body| ==> Satisfied(p, m, body[i])
    }

    method RunOnFunction(body: seq<Inst>, ghost sols: iset<FuncPtrMap>) returns (changed: bool)
      requires Ready(sols) && p.ValidBody(body) && forall s :: s in sols ==> BodySatisfied(s, body, |body|)
      modifies `FuncPtrs
      ensures Advances(old(FuncPtrs), changed, sols)
      ensures !changed ==> BodySatisfied(FuncPtrs, body, |body|)
    {
      changed := false;
      ghost var before := FuncPtrs;
      var k := 0;
      while k < |body|
        invariant 0 <= k <= |body|
        invariant Advances(before, changed, sols)
        invariant !changed ==> BodySatisfied(FuncPtrs, body, k)
      {
        ghost var mid := FuncPtrs;
        var c := RunOnInst(body[k], sols);
        Grown(before, mid, FuncPtrs);
        if !changed && !c {
          forall i | 0 <= i < k
            ensures Satisfied(p, FuncPtrs, body[i])
          {
            SatisfiedSame(p, mid, FuncPtrs, body[i]);
          }
        }
        changed := changed || c;
        k := k + 1;
      }
    }

    ghost predicate ModuleSatisfied(m: FuncPtrMap, fs: seq<seq<Inst>>, k: nat) {
      forall i :: 0 <= i < k && i < |fs| ==> BodySatisfied(m, fs[i], |fs[i]|)
    }

    lemma ModuleSame(a: FuncPtrMap, b: FuncPtrMap, fs: seq<seq<Inst>>, k: nat)
      requires Same(a, b) && ModuleSatisfied(a, fs, k)
      ensures ModuleSatisfied(b, fs, k)
    {
      forall i, j | 0 <= i < k && i < |fs| && 0 <= j < |fs[i]|
        ensures Satisfied(p, b, fs[i][j])
      {
        assert BodySatisfied(a, fs[i], |fs[i]|);
        SatisfiedSame(p, a, b, fs[i][j]);
      }
    }

    /** One sweep over the functions of a module. */
    method Sweep(fs: seq<seq<Inst>>, ghost sols: iset<FuncPtrMap>) returns (changed: bool)
      requires Ready(sols) && p.ValidModule(fs) && forall s :: s in sols ==> ModuleSatisfied(s, fs, |fs|)
      modifies `FuncPtrs
      ensures Advances(old(FuncPtrs), changed, sols)
      ensures !changed ==> ModuleSatisfied(FuncPtrs, fs, |fs|)
    {
      changed := false;
      ghost var before := FuncPtrs;
      var k := 0;
      while k < |fs|
        invariant 0 <= k <= |fs|
        invariant Advances(before, changed, sols)
        invariant !changed ==> ModuleSatisfied(FuncPtrs, fs, k)
      {
        ghost var mid := FuncPtrs;
        var c := RunOnFunction(fs[k], sols);
        Grown(before, mid, FuncPtrs);
        if !changed && !c {
          ModuleSame(mid, FuncPtrs, fs, k);
        }
        changed := changed || c;
        k := k + 1;
      }
    }

    /** doModulePass: sweep until nothing changes. */
    method DoModulePass(fs: seq<seq<Inst>>, ghost sols: iset<FuncPtrMap>) returns (ret: bool)
      requires Ready(sols) && p.ValidModule(fs) && forall s :: s in sols ==> ModuleSatisfied(s, fs, |fs|)
      modifies `FuncPtrs
      ensures Advances(old(FuncPtrs), ret, sols)
      ensures ModuleSatisfied(FuncPtrs, fs, |fs|)
    {
      var changed := true;
      ret := false;
      ghost var before := FuncPtrs;
      while changed
        invariant Advances(before, ret, sols)
        invariant !changed ==> ModuleSatisfied(FuncPtrs, fs, |fs|)
        decreases Remaining(p, FuncPtrs), changed
      {
        changed := false;
        ghost var mid := FuncPtrs;
        changed := Sweep(fs, sols);
        Grown(before, mid, FuncPtrs);
        RemainingShrinks(p, mid, FuncPtrs);
        ret := ret || changed;
      }
    }

    ghost predicate AllSatisfied(m: FuncPtrMap, k: nat) {
      forall i :: 0 <= i < k && i < |p.modules| ==> ModuleSatisfied(m, p.modules[i], |p.modules[i]|)
    }

    /** IterativeModulePass::run: passes over all modules until no module changes, then the callees
        of every call.  The result is the least solution of all propagation rules: exactly what flows
        to each identifier, and as callees of a call exactly what flows to the value called. */
    method Run()
      requires p.Valid() && Bounded(p, FuncPtrs) && Callees == map[]
      modifies this
      ensures LeastSolution(p, old(FuncPtrs), FuncPtrs)
      ensures forall i :: p.Has(i) && i.CallSite? ==>
                i.site in Callees && Resolve(p, FuncPtrs, i.called) <= Callees[i.site]
      ensures forall site, f :: site in Callees && f in Callees[site] ==>
                exists i :: p.Has(i) && i.CallSite? && i.site == site && f in Resolve(p, FuncPtrs, i.called)
      ensures forall id, f :: f in Lookup(FuncPtrs, id) <==> Flows(p, old(FuncPtrs), Glob(id), f)
      ensures forall i, f :: p.Has(i) && i.CallSite? && Flows(p, old(FuncPtrs), Val(i.called), f) ==>
                i.site in Callees && f in Callees[i.site]
      ensures forall site, f :: site in Callees && f in Callees[site] ==>
                exists i :: p.Has(i) && i.CallSite? && i.site == site && Flows(p, old(FuncPtrs), Val(i.called), f)
    {
      hide Flows;
      ghost var init := FuncPtrs;
      ghost var sols := iset s | Solution(p, init, s);
      forall s | s in sols
        ensures AllSatisfied(s, |p.modules|)
      {
        SolutionSatisfies(init, s);
      }
      var changed := 1;
      while changed != 0
        invariant Ready(sols) && Below(init, FuncPtrs) && Callees == map[]
        invariant forall s :: s in sols ==> AllSatisfied(s, |p.modules|)
        invariant changed == 0 ==> AllSatisfied(FuncPtrs, |p.modules|)
        decreases Remaining(p, FuncPtrs), changed != 0
      {
        changed := RunOnce(sols);
      }
      SatisfiedIsSolution(init, FuncPtrs);
      LeastIsFlow(p, init, FuncPtrs);
      ghost var done := Finalize();
    }

    /** One pass over all modules; the result counts the modules that changed something. */
    method RunOnce(ghost sols: iset<FuncPtrMap>) returns (changed: nat)
      requires Ready(sols) && forall s :: s in sols ==> AllSatisfied(s, |p.modules|)
      modifies `FuncPtrs
      ensures Ready(sols) && Below(old(FuncPtrs), FuncPtrs)
      ensures changed == 0 ==> AllSatisfied(FuncPtrs, |p.modules|) && Same(old(FuncPtrs), FuncPtrs)
      ensures Bounded(p, old(FuncPtrs)) && Remaining(p, FuncPtrs) <= Remaining(p, old(FuncPtrs))
      ensures changed != 0 ==> Remaining(p, FuncPtrs) < Remaining(p, old(FuncPtrs))
    {
      changed := 0;
      ghost var before := FuncPtrs;
      var k := 0;
      while k < |p.modules|
        invariant 0 <= k <= |p.modules|
        invariant Advances(before, changed != 0, sols)
        invariant changed == 0 ==> AllSatisfied(FuncPtrs, k)
      {
        ghost var mid := FuncPtrs;
        var ret := DoModulePass(p.modules[k], sols);
        Grown(before, mid, FuncPtrs);
        if ret {
          changed := changed + 1;
        } else if changed == 0 {
          forall i | 0 <= i < k
            ensures ModuleSatisfied(FuncPtrs, p.modules[i], |p.modules[i]|)
          {
            ModuleSame(mid, FuncPtrs, p.modules[i], |p.modules[i]|);
          }
        }
        k := k + 1;
      }
      RemainingShrinks(p, before, FuncPtrs);
    }

    /** The callees recorded are those of the call sites in done, and only those. */
    ghost predicate CalleesOf(done: set<Inst>)
      reads this
    {
      && (forall i :: i in done && i.CallSite? ==>
            i.site in Callees && Resolve(p, FuncPtrs, i.called) <= Callees[i.site])
      && (forall site, f :: site in Callees && f in Callees[site] ==> CalledAt(done, site, f))
    }

    ghost predicate CalledAt(done: set<Inst>, site: nat, f: nat)
      reads this
    {
      exists i :: i in done && i.CallSite? && i.site == site && f in Resolve(p, FuncPtrs, i.called)
    }

    /** doFinalization of one instruction. */
    method FinalizeInst(i: Inst, ghost done: set<Inst>)
      requires p.Valid() && p.ValidInst(i) && CalleesOf(done)
      modifies `Callees
      ensures CalleesOf(done + {i})
    {
      ghost var before := Callees;
      match i {
        case CallSite(site, called, _, _) =>
          var fs := if site in Callees then Callees[site] else {};
          var fs', _ := FindFunctions(called, fs, {});
          Callees := Callees[site := fs'];
          forall s, f | s in Callees && f in Callees[s]
            ensures CalledAt(done + {i}, s, f)
          {
            if s != site || f in fs {
              assert s in before && f in before[s] && CalledAt(done, s, f);
            } else {
              assert i in done + {i};
            }
          }
        case _ =>
          forall s, f | s in Callees && f in Callees[s]
            ensures CalledAt(done + {i}, s, f)
          {
            assert CalledAt(done, s, f);
          }
      }
    }

    method FinalizeBody(body: seq<Inst>, ghost done: set<Inst>) returns (ghost done': set<Inst>)
      requires p.Valid() && p.ValidBody(body) && CalleesOf(done)
      modifies `Callees
      ensures CalleesOf(done') && forall i :: i in done' <==> i in done || i in body
    {
      done' := done;
      var k := 0;
      while k < |body|
        invariant 0 <= k <= |body| && CalleesOf(done')
        invariant forall i :: i in done' <==> i in done || i in body[..k]
      {
        FinalizeInst(body[k], done');
        done' := done' + {body[k]};
        assert body[..k + 1] == body[..k] + [body[k]];
        k := k + 1;
      }
      assert body[..|body|] == body;
    }

    method FinalizeModule(fs: seq<seq<Inst>>, ghost done: set<Inst>) returns (ghost done': set<Inst>)
      requires p.Valid() && p.ValidModule(fs) && CalleesOf(done)
      modifies `Callees
      ensures CalleesOf(done') && forall i :: i in done' <==> i in done || Program.InModule(fs, i)
    {
      done' := done;
      var n := 0;
      while n < |fs|
        invariant 0 <= n <= |fs| && CalleesOf(done')
        invariant forall i :: i in done' <==> i in done || exists f :: 0 <= f < n && i in fs[f]
      {
        done' := FinalizeBody(fs[n], done');
        n := n + 1;
      }
    }

    /** doFinalization of every module. */
    method Finalize() returns (ghost done: set<Inst>)
      requires p.Valid() && Callees == map[]
      modifies `Callees
      ensures CalleesOf(done) && forall i :: i in done <==> p.Has(i)
    {
      done := {};
      var m := 0;
      while m < |p.modules|
        invariant 0 <= m <= |p.modules| && CalleesOf(done)
        invariant forall i :: i in done <==> exists k :: 0 <= k < m && Program.InModule(p.modules[k], i)
      {
        done := FinalizeModule(p.modules[m], done);
        m := m + 1;
      }
    }

    lemma SolutionSatisfies(init: FuncPtrMap, s: FuncPtrMap)
      requires Solution(p, init, s)
      ensures AllSatisfied(s, |p.modules|)
    {
      forall m, f, k | 0 <= m < |p.modules| && 0 <= f < |p.modules[m]| && 0 <= k < |p.modules[m][f]|
        ensures Satisfied(p, s, p.modules[m][f][k])
      {
        assert Program.InModule(p.modules[m], p.modules[m][f][k]);
        assert p.Has(p.modules[m][f][k]);
      }
    }

    lemma SatisfiedIsSolution(init: FuncPtrMap, s: FuncPtrMap)
      requires AllSatisfied(s, |p.modules|) && Below(init, s)
      ensures Solution(p, init, s)
    {
      forall i | p.Has(i)
        ensures Satisfied(p, s, i)
      {
        var m :| 0 <= m < |p.modules| && Program.InModule(p.modules[m], i);
        var f :| 0 <= f < |p.modules[m]| && i in p.modules[m][f];
        assert ModuleSatisfied(s, p.modules[m], |p.modules[m]|);
        assert BodySatisfied(s, p.modules[m][f], |p.modules[m][f]|);
      }
    }
  }
}
