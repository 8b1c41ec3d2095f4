/** TaintPass: descriptions of untrusted sources spread over values and global identifiers. */
module Taints {
  import opened FiniteSets

  type Id = string
  type Desc = string
  type DescSet = set<Desc>

  datatype Option<T> = None | Some(value: T)

  /** A possible callee of a call; variadic and built-in functions receive no taint. */
  datatype Callee = Callee(retId: Id, argId: nat -> Id, skipped: bool)

  datatype Kind =
    | CallInst(args: seq<nat>)
    | StoreInst(id: Option<Id>)
    | ReturnInst(retId: Id)
    | OtherInst

  /** An instruction: its own value, its operands, and the taint_src annotation if it has one, with
      the identifiers of the fields if it points to a structure. */
  datatype Inst = Inst(v: nat, kind: Kind, operands: seq<nat>, source: Option<Desc>, memberIds: seq<Id>)

  type Function = seq<Inst>
  type Module = seq<Function>

  /** callees is defined for the calls that are not inline assembly and have an entry in the call
      graph; ids are all the identifiers that instructions can taint. The empty identifier stands for
      a value without one. */
  datatype Program = Program(
    modules: seq<Module>, valueId: nat -> Id, strip: nat -> nat, callees: map<nat, seq<Callee>>, ids: set<Id>)
  {
    ghost predicate Has(i: Inst) {
      exists m: nat, f: nat, k: nat :: At(m, f, k) && modules[m][f][k] == i
    }

    predicate At(m: nat, f: nat, k: nat) {
      m < |modules| && f < |modules[m]| && k < |modules[m][f]|
    }

    predicate Known(id: Id) {
      id == "" || id in ids
    }

    predicate ValidInst(i: Inst) {
      && (i.source.Some? ==> Known(valueId(i.v)) && forall k :: 0 <= k < |i.memberIds| ==> Known(i.memberIds[k]))
      && match i.kind
         case CallInst(args) =>
           i.v in callees ==>
             forall c, a :: 0 <= c < |callees[i.v]| && 0 <= a < |args| ==> Known(callees[i.v][c].argId(a))
         case StoreInst(id) => id.Some? ==> Known(id.value)
         case ReturnInst(id) => Known(id)
         case OtherInst => true
    }

    ghost predicate Valid() {
      forall i :: Has(i) ==> ValidInst(i)
    }
  }

  // ----- Where taint can come from

  datatype Node = Val(v: nat) | Glob(id: Id)

  /** An annotated instruction makes its own identifier and those of the fields sources. */
  predicate Marks(p: Program, i: Inst, id: Id) {
    i.source.Some? && id != "" && (id == p.valueId(i.v) || id in i.memberIds)
  }

  ghost predicate MarkedId(p: Program, id: Id) {
    exists i :: p.Has(i) && Marks(p, i, id)
  }

  ghost predicate IsSource(p: Program, n: Node, d: Desc) {
    n.Val? && exists i :: p.Has(i) && i.v == n.v && i.source == Some(d)
  }

  predicate Passes(p: Program, i: Inst, c: nat, a: nat, v: nat, id: Id) {
    && i.kind.CallInst? && i.v in p.callees && c < |p.callees[i.v]| && a < |i.kind.args|
    && !p.callees[i.v][c].skipped && i.kind.args[a] == v && p.callees[i.v][c].argId(a) == id
  }

  /** What one instruction lets taint flow between. */
  ghost predicate InstFlows(p: Program, i: Inst, a: Node, b: Node) {
    && a.Val?
    && match b
       case Val(y) => !i.kind.CallInst? && a.v in i.operands && y == i.v
       case Glob(id) =>
         || (a.v == i.v && Marks(p, i, id))
         || (exists c, k :: Passes(p, i, c, k, a.v, id))
         || (a.v in i.operands && (i.kind == StoreInst(Some(id)) || i.kind == ReturnInst(id)))
  }

  predicate Returns(p: Program, v: nat, c: nat, id: Id) {
    v in p.callees && c < |p.callees[v]| && p.callees[v][c].retId == id
  }

  /** One step of propagation: by an instruction of the program, or by what a value stands for, which
      is the value under its casts, its own identifier, or the results of its callees. */
  ghost predicate Flows(p: Program, a: Node, b: Node) {
    || (exists i :: p.Has(i) && InstFlows(p, i, a, b))
    || (b.Val? && a == Val(p.strip(b.v)))
    || (b.Val? && a.Glob? && (a.id == p.valueId(b.v) || exists c :: Returns(p, b.v, c, a.id)))
  }

  ghost predicate Chain(p: Program, path: seq<Node>, n: Node, d: Desc) {
    && |path| > 0 && IsSource(p, path[0], d) && path[|path| - 1] == n
    && forall i :: 0 < i < |path| ==> Flows(p, path[i - 1], path[i])
  }

  /** A chain of propagation steps connects a source with the description to the node. */
  ghost predicate Derived(p: Program, n: Node, d: Desc) {
    exists path :: Chain(p, path, n, d)
  }

  ghost predicate AllDerived(p: Program, n: Node, ds: DescSet) {
    forall d :: d in ds ==> Derived(p, n, d)
  }

  lemma DerivedStep(p: Program, a: Node, b: Node, ds: DescSet)
    requires AllDerived(p, a, ds) && Flows(p, a, b)
    ensures AllDerived(p, b, ds)
  {
    hide Flows, IsSource;
    forall d | d in ds ensures Derived(p, b, d) {
      var path :| Chain(p, path, a, d);
      assert Chain(p, path + [b], b, d);
    }
  }

  lemma DerivedSource(p: Program, i: Inst)
    requires p.Has(i) && i.source.Some?
    ensures AllDerived(p, Val(i.v), {i.source.value})
  {
    assert Chain(p, [Val(i.v)], Val(i.v), i.source.value);
  }

  // ----- The maps and what one instruction does to them

  datatype State = State(gts: map<Id, (DescSet, bool)>, vts: map<nat, DescSet>)

  function IdTaint(s: State, id: Id): DescSet {
    if id != "" && id in s.gts then s.gts[id].0 else {}
  }

  predicate SourceId(s: State, id: Id) {
    id != "" && id in s.gts && s.gts[id].1
  }

  function AddId(s: State, id: Id, ds: DescSet, isSource: bool): State {
    if id == "" then s else s.(gts := s.gts[id := (IdTaint(s, id) + ds, SourceId(s, id) || isSource)])
  }

  function AddVal(s: State, v: nat, ds: DescSet): State {
    s.(vts := s.vts[v := (if v in s.vts then s.vts[v] else {}) + ds])
  }

  /** The taint of everything the first n callees can return. */
  function Returned(s: State, cs: seq<Callee>, n: nat): DescSet
    requires n <= |cs|
  {
    if n == 0 then {} else Returned(s, cs, n - 1) + IdTaint(s, cs[n - 1].retId)
  }

  function Pulled(p: Program, s: State, v: nat): DescSet {
    (if v in p.callees then Returned(s, p.callees[v], |p.callees[v]|) else {}) + IdTaint(s, p.valueId(v))
  }

  /** The taint of a value; no description means not tainted. */
  function Taint(p: Program, s: State, v: nat): DescSet {
    if v in s.vts then s.vts[v] else if p.strip(v) in s.vts then s.vts[p.strip(v)] else Pulled(p, s, v)
  }

  /** Asking for the taint of a value stores what it pulls from the identifiers. */
  function Looked(p: Program, s: State, v: nat): State {
    if v in s.vts || p.strip(v) in s.vts || Pulled(p, s, v) == {} then s else AddVal(s, v, Pulled(p, s, v))
  }

  /** The operands are asked in turn: the state they leave and the union of what they answer. */
  function Gather(p: Program, s: State, ops: seq<nat>, n: nat): (State, DescSet)
    requires n <= |ops|
  {
    if n == 0 then (s, {})
    else var (t, ds) := Gather(p, s, ops, n - 1); (Looked(p, t, ops[n - 1]), ds + Taint(p, t, ops[n - 1]))
  }

  function MarkMembers(s: State, ids: seq<Id>, ds: DescSet, n: nat): State
    requires n <= |ids|
  {
    if n == 0 then s else AddId(MarkMembers(s, ids, ds, n - 1), ids[n - 1], ds, true)
  }

  function Mark(p: Program, s: State, i: Inst): State {
    if i.source.None? then s else
    var t := AddVal(s, i.v, {i.source.value});
    MarkMembers(AddId(t, p.valueId(i.v), t.vts[i.v], true), i.memberIds, t.vts[i.v], |i.memberIds|)
  }

  function PassArgs(p: Program, s: State, c: Callee, args: seq<nat>, n: nat): State
    requires n <= |args|
  {
    if n == 0 then s else
    var t := PassArgs(p, s, c, args, n - 1);
    var ds := Taint(p, t, args[n - 1]);
    if ds == {} then t else AddId(Looked(p, t, args[n - 1]), c.argId(n - 1), ds, false)
  }

  function PassCallees(p: Program, s: State, cs: seq<Callee>, args: seq<nat>, n: nat): State
    requires n <= |cs|
  {
    if n == 0 then s else
    var t := PassCallees(p, s, cs, args, n - 1);
    if cs[n - 1].skipped then t else PassArgs(p, t, cs[n - 1], args, |args|)
  }

  function Spread(p: Program, s: State, i: Inst, ds: DescSet): State {
    match i.kind
    case StoreInst(Some(id)) => AddId(AddVal(s, i.v, ds), id, ds, false)
    case ReturnInst(id) => AddId(AddVal(s, i.v, ds), id, ds, false)
    case _ => AddVal(s, i.v, ds)
  }

  /** Calls pass taint on to the parameters of their callees; the rest takes it from the operands. */
  function Propagate(p: Program, s: State, i: Inst): State {
    match i.kind
    case CallInst(args) => if i.v in p.callees then PassCallees(p, s, p.callees[i.v], args, |p.callees[i.v]|) else s
    case _ =>
      var (t, ds) := Gather(p, s, i.operands, |i.operands|);
      if ds == {} then t else Spread(p, t, i, ds)
  }

  function RunInst(p: Program, s: State, i: Inst): State {
    Propagate(p, Mark(p, s, i), i)
  }

  function RunFunction(p: Program, s: State, f: Function, n: nat): State
    requires n <= |f|
  {
    if n == 0 then s else RunInst(p, RunFunction(p, s, f, n - 1), f[n - 1])
  }

  function Sweep(p: Program, s: State, m: Module, n: nat): State
    requires n <= |m|
  {
    if n == 0 then s else RunFunction(p, Sweep(p, s, m, n - 1), m[n - 1], |m[n - 1]|)
  }

  /** One sweep of each of the first n modules. */
  function Round(p: Program, s: State, n: nat): State
    requires n <= |p.modules|
  {
    if n == 0 then s else Sweep(p, Round(p, s, n - 1), p.modules[n - 1], |p.modules[n - 1]|)
  }

  // ----- What every step keeps

  /** The value is that of an instruction, and not an argument, a global variable or a constant. */
  ghost predicate IsResult(p: Program, v: nat) {
    exists i :: p.Has(i) && i.v == v
  }

  /** Nothing is stored without a description, every description comes from a source through a chain
      of steps, values other than results pull theirs from identifiers, and only marked identifiers
      are sources. */
  ghost predicate Inv(p: Program, s: State) {
    && (forall v :: v in s.vts ==>
          && s.vts[v] != {} && AllDerived(p, Val(v), s.vts[v])
          && (IsResult(p, v) || Pulled(p, s, v) != {}))
    && (forall id :: id in s.gts ==>
          && id != "" && id in p.ids && s.gts[id].0 != {} && AllDerived(p, Glob(id), s.gts[id].0)
          && (s.gts[id].1 ==> MarkedId(p, id)))
  }

  predicate Leq(s: State, t: State) {
    && (forall v :: v in s.vts ==> v in t.vts && s.vts[v] <= t.vts[v])
    && (forall id :: id in s.gts ==> id in t.gts && s.gts[id].0 <= t.gts[id].0 && (s.gts[id].1 ==> t.gts[id].1))
  }

  lemma LeqTransitive(s: State, t: State, u: State)
    requires Leq(s, t) && Leq(t, u)
    ensures Leq(s, u)
  {}

  predicate GlobalsLeq(s: State, t: State) {
    forall id :: id in s.gts ==> id in t.gts && s.gts[id].0 <= t.gts[id].0
  }

  lemma {:induction false} ReturnedGrows(s: State, t: State, cs: seq<Callee>, n: nat)
    requires GlobalsLeq(s, t) && n <= |cs|
    ensures Returned(s, cs, n) <= Returned(t, cs, n)
  {
    if n > 0 { ReturnedGrows(s, t, cs, n - 1); }
  }

  /** What a value pulls grows with the identifiers. */
  lemma PulledGrows(p: Program, s: State, t: State, v: nat)
    requires GlobalsLeq(s, t)
    ensures Pulled(p, s, v) <= Pulled(p, t, v)
  {
    if v in p.callees { ReturnedGrows(s, t, p.callees[v], |p.callees[v]|); }
  }

  lemma AddIdKeeps(p: Program, s: State, id: Id, ds: DescSet, isSource: bool)
    requires Inv(p, s) && p.Known(id) && ds != {} && (id != "" ==> AllDerived(p, Glob(id), ds))
    requires isSource && id != "" ==> MarkedId(p, id)
    ensures Inv(p, AddId(s, id, ds, isSource)) && Leq(s, AddId(s, id, ds, isSource))
  {
    hide Derived, MarkedId, IsResult, Pulled;
    var t := AddId(s, id, ds, isSource);
    forall v | v in t.vts ensures IsResult(p, v) || Pulled(p, t, v) != {} {
      PulledGrows(p, s, t, v);
    }
  }

  lemma AddValKeeps(p: Program, s: State, v: nat, ds: DescSet)
    requires Inv(p, s) && ds != {} && AllDerived(p, Val(v), ds)
    requires IsResult(p, v) || Pulled(p, s, v) != {}
    ensures Inv(p, AddVal(s, v, ds)) && Leq(s, AddVal(s, v, ds))
  {
    hide Derived, MarkedId, IsResult, Pulled;
    var t := AddVal(s, v, ds);
    forall u | u in t.vts ensures IsResult(p, u) || Pulled(p, t, u) != {} {
      PulledGrows(p, s, t, u);
    }
  }

  lemma {:induction false} ReturnedDerived(p: Program, s: State, v: nat, n: nat)
    requires Inv(p, s) && v in p.callees && n <= |p.callees[v]|
    ensures AllDerived(p, Val(v), Returned(s, p.callees[v], n))
  {
    hide Derived, MarkedId;
    if n > 0 {
      ReturnedDerived(p, s, v, n - 1);
      var id := p.callees[v][n - 1].retId;
      assert Returns(p, v, n - 1, id);
      DerivedStep(p, Glob(id), Val(v), IdTaint(s, id));
    }
  }

  lemma {:induction false} ReturnedExactly(s: State, cs: seq<Callee>, n: nat, d: Desc)
    requires n <= |cs|
    ensures d in Returned(s, cs, n) <==> exists c :: 0 <= c < n && d in IdTaint(s, cs[c].retId)
  {
    if n > 0 { ReturnedExactly(s, cs, n - 1, d); }
  }

  /** What a value is told: what is stored for it, or else for what is below its casts, or else every
      description of its own identifier and of what its callees can return. */
  lemma TaintMeaning(p: Program, s: State, v: nat)
    ensures v in s.vts ==> Taint(p, s, v) == s.vts[v]
    ensures v !in s.vts && p.strip(v) in s.vts ==> Taint(p, s, v) == s.vts[p.strip(v)]
    ensures v !in s.vts && p.strip(v) !in s.vts ==>
              forall d :: d in Taint(p, s, v) <==>
                d in IdTaint(s, p.valueId(v)) || exists c, id :: Returns(p, v, c, id) && d in IdTaint(s, id)
  {
    if v !in s.vts && p.strip(v) !in s.vts && v in p.callees {
      var cs := p.callees[v];
      forall d ensures d in Returned(s, cs, |cs|) <==> exists c, id :: Returns(p, v, c, id) && d in IdTaint(s, id) {
        ReturnedExactly(s, cs, |cs|, d);
        if c :| 0 <= c < |cs| && d in IdTaint(s, cs[c].retId) { assert Returns(p, v, c, cs[c].retId); }
      }
    }
  }

  /** What a value was told from identifiers is stored for it; asking changes nothing else. */
  lemma LookedMeaning(p: Program, s: State, v: nat)
    ensures v !in s.vts && p.strip(v) !in s.vts ==>
              (v in Looked(p, s, v).vts <==> Taint(p, s, v) != {})
              && (v in Looked(p, s, v).vts ==> Looked(p, s, v).vts[v] == Taint(p, s, v))
    ensures v in s.vts || p.strip(v) in s.vts ==> Looked(p, s, v) == s
    ensures Looked(p, s, v).gts == s.gts
    ensures forall u :: u != v && (u in s.vts || u in Looked(p, s, v).vts) ==>
              u in s.vts && u in Looked(p, s, v).vts && Looked(p, s, v).vts[u] == s.vts[u]
  {
    hide Pulled;
    assert {} + Pulled(p, s, v) == Pulled(p, s, v);
  }

  /** What a value is told to be tainted with is derived for that value. */
  lemma TaintDerived(p: Program, s: State, v: nat)
    requires Inv(p, s)
    ensures AllDerived(p, Val(v), Taint(p, s, v))
    ensures Inv(p, Looked(p, s, v)) && Leq(s, Looked(p, s, v))
  {
    hide Derived, MarkedId, Returned;
    if v in s.vts {
    } else if p.strip(v) in s.vts {
      DerivedStep(p, Val(p.strip(v)), Val(v), s.vts[p.strip(v)]);
    } else {
      if v in p.callees { ReturnedDerived(p, s, v, |p.callees[v]|); }
      DerivedStep(p, Glob(p.valueId(v)), Val(v), IdTaint(s, p.valueId(v)));
      if Pulled(p, s, v) != {} { AddValKeeps(p, s, v, Pulled(p, s, v)); }
    }
  }

  lemma {:induction false} GatherKeeps(p: Program, s: State, i: Inst, n: nat)
    requires Inv(p, s) && p.Has(i) && n <= |i.operands|
    ensures Inv(p, Gather(p, s, i.operands, n).0) && Leq(s, Gather(p, s, i.operands, n).0)
    ensures !i.kind.CallInst? ==> AllDerived(p, Val(i.v), Gather(p, s, i.operands, n).1)
    ensures forall id :: i.kind == StoreInst(Some(id)) || i.kind == ReturnInst(id) ==>
              AllDerived(p, Glob(id), Gather(p, s, i.operands, n).1)
  {
    hide Derived, MarkedId, Taint, Looked, Inv, Leq;
    if n == 0 { LeqReflexive(s); return; }
    GatherKeeps(p, s, i, n - 1);
    var (t, ds) := Gather(p, s, i.operands, n - 1);
    var o := i.operands[n - 1];
    TaintDerived(p, t, o);
    LeqTransitive(s, t, Looked(p, t, o));
    if !i.kind.CallInst? {
      assert InstFlows(p, i, Val(o), Val(i.v));
      DerivedStep(p, Val(o), Val(i.v), Taint(p, t, o));
    }
    forall id | i.kind == StoreInst(Some(id)) || i.kind == ReturnInst(id)
      ensures AllDerived(p, Glob(id), Taint(p, t, o))
    {
      assert InstFlows(p, i, Val(o), Glob(id));
      DerivedStep(p, Val(o), Glob(id), Taint(p, t, o));
    }
  }

  lemma LeqReflexive(s: State)
    ensures Leq(s, s)
  {}

  lemma MarkedBy(p: Program, i: Inst, id: Id, ds: DescSet)
    requires p.Has(i) && Marks(p, i, id) && AllDerived(p, Val(i.v), ds)
    ensures MarkedId(p, id) && AllDerived(p, Glob(id), ds)
  {
    assert InstFlows(p, i, Val(i.v), Glob(id));
    DerivedStep(p, Val(i.v), Glob(id), ds);
  }

  lemma {:induction false} MarkMembersKeeps(p: Program, s: State, i: Inst, ds: DescSet, n: nat)
    requires Inv(p, s) && p.Has(i) && p.ValidInst(i) && i.source.Some? && ds != {}
    requires AllDerived(p, Val(i.v), ds) && n <= |i.memberIds|
    ensures Inv(p, MarkMembers(s, i.memberIds, ds, n)) && Leq(s, MarkMembers(s, i.memberIds, ds, n))
    ensures forall k :: 0 <= k < n && i.memberIds[k] != "" ==>
              SourceId(MarkMembers(s, i.memberIds, ds, n), i.memberIds[k])
  {
    hide Inv, AllDerived, MarkedId;
    if n == 0 { LeqReflexive(s); return; }
    MarkMembersKeeps(p, s, i, ds, n - 1);
    var t := MarkMembers(s, i.memberIds, ds, n - 1);
    var id := i.memberIds[n - 1];
    if id != "" {
      MarkedBy(p, i, id, ds);
      AddIdKeeps(p, t, id, ds, true);
    }
  }

  lemma Stored(p: Program, s: State, v: nat)
    requires Inv(p, s) && v in s.vts
    ensures s.vts[v] != {} && AllDerived(p, Val(v), s.vts[v])
  {}

  lemma SourceStays(s: State, t: State, id: Id)
    requires Leq(s, t) && SourceId(s, id)
    ensures SourceId(t, id)
  {}

  lemma ValueStays(s: State, t: State, v: nat)
    requires Leq(s, t) && v in s.vts
    ensures v in t.vts && s.vts[v] <= t.vts[v]
  {}

  lemma MarkKeeps(p: Program, s: State, i: Inst)
    requires Inv(p, s) && p.Has(i) && p.ValidInst(i)
    ensures Inv(p, Mark(p, s, i)) && Leq(s, Mark(p, s, i))
    ensures forall id :: Marks(p, i, id) ==> SourceId(Mark(p, s, i), id)
    ensures i.source.Some? ==> i.v in Mark(p, s, i).vts && i.source.value in Mark(p, s, i).vts[i.v]
  {
    hide Inv, Leq, AllDerived, MarkedId;
    LeqReflexive(s);
    if i.source.Some? {
      DerivedSource(p, i);
      AddValKeeps(p, s, i.v, {i.source.value});
      var t := AddVal(s, i.v, {i.source.value});
      var ds, id := t.vts[i.v], p.valueId(i.v);
      Stored(p, t, i.v);
      var u := AddId(t, id, ds, true);
      LeqReflexive(t);
      if id != "" {
        MarkedBy(p, i, id, ds);
        AddIdKeeps(p, t, id, ds, true);
      }
      MarkMembersKeeps(p, u, i, ds, |i.memberIds|);
      var w := MarkMembers(u, i.memberIds, ds, |i.memberIds|);
      LeqTransitive(s, t, u);
      LeqTransitive(s, u, w);
      if id != "" { SourceStays(u, w, id); }
      ValueStays(u, w, i.v);
    }
  }

  // ----- What every step reaches

  ghost predicate Tainted(p: Program, s: State, n: Node) {
    match n
    case Val(v) => Taint(p, s, v) != {}
    case Glob(id) => id == "" || id in s.gts
  }

  lemma TaintedStays(p: Program, s: State, t: State, n: Node)
    requires Leq(s, t) && Inv(p, t) && Tainted(p, s, n)
    ensures Tainted(p, t, n)
  {
    hide AllDerived, MarkedId;
    if n.Val? && n.v in p.callees { ReturnedGrows(s, t, p.callees[n.v], |p.callees[n.v]|); }
  }

  lemma {:induction false} GatherReaches(p: Program, s: State, i: Inst, k: nat, n: nat)
    requires Inv(p, s) && p.Has(i) && k < n <= |i.operands| && Tainted(p, s, Val(i.operands[k]))
    ensures Gather(p, s, i.operands, n).1 != {}
  {
    hide Inv, Leq, Taint, Looked;
    if k == n - 1 {
      GatherKeeps(p, s, i, k);
      TaintedStays(p, s, Gather(p, s, i.operands, k).0, Val(i.operands[k]));
    } else {
      GatherReaches(p, s, i, k, n - 1);
    }
  }

  lemma {:induction false} PassArgsKeeps(p: Program, s: State, i: Inst, c: nat, n: nat)
    requires Inv(p, s) && p.Has(i) && p.ValidInst(i) && i.kind.CallInst? && n <= |i.kind.args|
    requires i.v in p.callees && c < |p.callees[i.v]| && !p.callees[i.v][c].skipped
    ensures Inv(p, PassArgs(p, s, p.callees[i.v][c], i.kind.args, n))
    ensures Leq(s, PassArgs(p, s, p.callees[i.v][c], i.kind.args, n))
    ensures forall a: nat :: a < n && Tainted(p, s, Val(i.kind.args[a])) ==>
              Tainted(p, PassArgs(p, s, p.callees[i.v][c], i.kind.args, n), Glob(p.callees[i.v][c].argId(a)))
  {
    hide Inv, AllDerived, MarkedId, Taint, Looked, Leq;
    var callee := p.callees[i.v][c];
    if n == 0 { LeqReflexive(s); return; }
    PassArgsKeeps(p, s, i, c, n - 1);
    var t := PassArgs(p, s, callee, i.kind.args, n - 1);
    var v := i.kind.args[n - 1];
    var ds := Taint(p, t, v);
    var id := callee.argId(n - 1);
    TaintDerived(p, t, v);
    if Tainted(p, s, Val(v)) { TaintedStays(p, s, t, Val(v)); }
    if ds != {} {
      assert Passes(p, i, c, n - 1, v, id);
      DerivedStep(p, Val(v), Glob(id), ds);
      PassOne(p, s, t, v, id, ds);
      forall a: nat | a < n - 1 && Tainted(p, s, Val(i.kind.args[a]))
        ensures Tainted(p, AddId(Looked(p, t, v), id, ds, false), Glob(callee.argId(a)))
      {
        TaintedStays(p, t, AddId(Looked(p, t, v), id, ds, false), Glob(callee.argId(a)));
      }
    }
  }

  lemma PassOne(p: Program, s: State, t: State, v: nat, id: Id, ds: DescSet)
    requires Leq(s, t) && Inv(p, t) && p.Known(id) && ds != {} && AllDerived(p, Glob(id), ds)
    ensures var u := AddId(Looked(p, t, v), id, ds, false);
            Inv(p, u) && Leq(s, u) && Leq(t, u) && Tainted(p, u, Glob(id))
  {
    hide Inv, AllDerived, MarkedId, Taint, Looked, Leq;
    TaintDerived(p, t, v);
    AddIdKeeps(p, Looked(p, t, v), id, ds, false);
    LeqTransitive(t, Looked(p, t, v), AddId(Looked(p, t, v), id, ds, false));
    LeqTransitive(s, t, AddId(Looked(p, t, v), id, ds, false));
  }

  lemma {:induction false} PassCalleesKeeps(p: Program, s: State, i: Inst, n: nat)
    requires Inv(p, s) && p.Has(i) && p.ValidInst(i) && i.kind.CallInst? && i.v in p.callees && n <= |p.callees[i.v]|
    ensures Inv(p, PassCallees(p, s, p.callees[i.v], i.kind.args, n))
    ensures Leq(s, PassCallees(p, s, p.callees[i.v], i.kind.args, n))
    ensures forall c: nat, a: nat, v: nat, id :: c < n && Passes(p, i, c, a, v, id) && Tainted(p, s, Val(v)) ==>
              Tainted(p, PassCallees(p, s, p.callees[i.v], i.kind.args, n), Glob(id))
  {
    hide Inv, Taint, Leq, PassArgs, p.ValidInst;
    if n == 0 { LeqReflexive(s); return; }
    PassCalleesKeeps(p, s, i, n - 1);
    var cs := p.callees[i.v];
    var t := PassCallees(p, s, cs, i.kind.args, n - 1);
    if !cs[n - 1].skipped {
      var u := PassArgs(p, t, cs[n - 1], i.kind.args, |i.kind.args|);
      PassArgsKeeps(p, t, i, n - 1, |i.kind.args|);
      LeqTransitive(s, t, u);
      forall c: nat, a: nat, v: nat, id | c < n && Passes(p, i, c, a, v, id) && Tainted(p, s, Val(v))
        ensures Tainted(p, u, Glob(id))
      {
        if c < n - 1 {
          TaintedStays(p, t, u, Glob(id));
        } else {
          TaintedStays(p, s, t, Val(v));
        }
      }
    }
  }

  lemma SpreadKeeps(p: Program, s: State, i: Inst, ds: DescSet)
    requires Inv(p, s) && p.Has(i) && p.ValidInst(i) && ds != {} && !i.kind.CallInst? && AllDerived(p, Val(i.v), ds)
    requires forall id :: i.kind == StoreInst(Some(id)) || i.kind == ReturnInst(id) ==> AllDerived(p, Glob(id), ds)
    ensures Inv(p, Spread(p, s, i, ds)) && Leq(s, Spread(p, s, i, ds))
    ensures i.v in Spread(p, s, i, ds).vts
    ensures forall id :: i.kind == StoreInst(Some(id)) || i.kind == ReturnInst(id) ==>
              Tainted(p, Spread(p, s, i, ds), Glob(id))
  {
    hide Inv, AllDerived, MarkedId, Leq;
    AddValKeeps(p, s, i.v, ds);
    var t := AddVal(s, i.v, ds);
    match i.kind {
      case StoreInst(Some(id)) => AddIdKeeps(p, t, id, ds, false); LeqTransitive(s, t, AddId(t, id, ds, false));
      case ReturnInst(id) => AddIdKeeps(p, t, id, ds, false); LeqTransitive(s, t, AddId(t, id, ds, false));
      case _ =>
    }
  }

  lemma PropagateKeeps(p: Program, s: State, i: Inst)
    requires Inv(p, s) && p.Has(i) && p.ValidInst(i)
    ensures Inv(p, Propagate(p, s, i)) && Leq(s, Propagate(p, s, i))
    ensures forall a, b :: InstFlows(p, i, a, b) && !(b.Glob? && Marks(p, i, b.id)) && Tainted(p, s, a) ==>
              Tainted(p, Propagate(p, s, i), b)
  {
    hide Inv, AllDerived, MarkedId, Leq, Marks, Gather, Spread, PassCallees, Taint;
    if i.kind.CallInst? {
      LeqReflexive(s);
      if i.v in p.callees { PassCalleesKeeps(p, s, i, |p.callees[i.v]|); }
    } else {
      var n := |i.operands|;
      GatherKeeps(p, s, i, n);
      var (t, ds) := Gather(p, s, i.operands, n);
      if ds != {} {
        SpreadKeeps(p, t, i, ds);
        LeqTransitive(s, t, Spread(p, t, i, ds));
        ValIsTainted(p, Spread(p, t, i, ds), i.v);
      }
      forall a: Node | a.Val? && a.v in i.operands && Tainted(p, s, a) ensures ds != {} {
        var k :| 0 <= k < n && i.operands[k] == a.v;
        GatherReaches(p, s, i, k, n);
      }
    }
  }

  lemma ValIsTainted(p: Program, s: State, v: nat)
    requires Inv(p, s)
    ensures v in s.vts ==> Tainted(p, s, Val(v))
  {
    hide AllDerived, MarkedId;
  }

  /** One instruction keeps the invariant, only adds, marks what it annotates, and taints everything
      that an already tainted operand or argument flows into. */
  lemma RunInstKeeps(p: Program, s: State, i: Inst)
    requires Inv(p, s) && p.Has(i) && p.ValidInst(i)
    ensures Inv(p, RunInst(p, s, i)) && Leq(s, RunInst(p, s, i))
    ensures forall id :: Marks(p, i, id) ==> SourceId(RunInst(p, s, i), id)
    ensures i.source.Some? ==> Tainted(p, RunInst(p, s, i), Val(i.v))
    ensures forall a, b :: InstFlows(p, i, a, b) && Tainted(p, s, a) ==> Tainted(p, RunInst(p, s, i), b)
  {
    hide Inv, InstFlows, Marks, Propagate, Mark, Taint;
    var t, u := Mark(p, s, i), RunInst(p, s, i);
    MarkKeeps(p, s, i);
    PropagateKeeps(p, t, i);
    LeqTransitive(s, t, u);
    ValIsTainted(p, u, i.v);
    forall a, b | InstFlows(p, i, a, b) && Tainted(p, s, a) ensures Tainted(p, u, b) {
      TaintedStays(p, s, t, a);
    }
  }

  // ----- Which descriptions an instruction delivers

  /** The descriptions stored for a node. */
  function Descs(s: State, n: Node): DescSet {
    match n
    case Val(v) => if v in s.vts then s.vts[v] else {}
    case Glob(id) => IdTaint(s, id)
  }

  lemma DescsGrow(s: State, t: State, n: Node)
    requires Leq(s, t)
    ensures Descs(s, n) <= Descs(t, n)
  {}

  /** Nothing that was added to an identifier is lost. */
  lemma AddIdHolds(s: State, id: Id, ds: DescSet, isSource: bool)
    ensures id != "" ==> ds + IdTaint(s, id) == IdTaint(AddId(s, id, ds, isSource), id)
    ensures Leq(s, AddId(s, id, ds, isSource))
  {}

  lemma {:induction false} MarkMembersHolds(s: State, ids: seq<Id>, ds: DescSet, n: nat)
    requires n <= |ids|
    ensures Leq(s, MarkMembers(s, ids, ds, n))
    ensures forall k :: 0 <= k < n && ids[k] != "" ==> ds <= IdTaint(MarkMembers(s, ids, ds, n), ids[k])
  {
    hide Leq, AddId;
    if n == 0 { LeqReflexive(s); return; }
    MarkMembersHolds(s, ids, ds, n - 1);
    var t := MarkMembers(s, ids, ds, n - 1);
    var u := AddId(t, ids[n - 1], ds, true);
    AddIdHolds(t, ids[n - 1], ds, true);
    LeqTransitive(s, t, u);
    forall k | 0 <= k < n - 1 ensures IdTaint(t, ids[k]) <= IdTaint(u, ids[k]) { DescsGrow(t, u, Glob(ids[k])); }
  }

  /** An annotation gives its description, and what its value had before, to the value and to every
      identifier it marks. */
  lemma MarkHolds(p: Program, s: State, i: Inst)
    ensures Leq(s, Mark(p, s, i))
    ensures i.source.Some? ==> i.source.value in Descs(Mark(p, s, i), Val(i.v))
    ensures forall id :: Marks(p, i, id) ==> Descs(s, Val(i.v)) + {i.source.value} <= IdTaint(Mark(p, s, i), id)
  {
    hide Leq, AddId, MarkMembers;
    LeqReflexive(s);
    if i.source.Some? {
      var t := AddVal(s, i.v, {i.source.value});
      var ds := t.vts[i.v];
      var u := AddId(t, p.valueId(i.v), ds, true);
      var w := MarkMembers(u, i.memberIds, ds, |i.memberIds|);
      assert Leq(s, t) by { AddValHolds(s, i.v, {i.source.value}); }
      AddIdHolds(t, p.valueId(i.v), ds, true);
      MarkMembersHolds(u, i.memberIds, ds, |i.memberIds|);
      LeqTransitive(s, t, u);
      LeqTransitive(s, u, w);
      DescsGrow(t, u, Val(i.v));
      DescsGrow(u, w, Val(i.v));
      DescsGrow(u, w, Glob(p.valueId(i.v)));
    }
  }

  lemma AddValHolds(s: State, v: nat, ds: DescSet)
    ensures Descs(AddVal(s, v, ds), Val(v)) == Descs(s, Val(v)) + ds && Leq(s, AddVal(s, v, ds))
  {}

  lemma LookedGrows(p: Program, s: State, v: nat)
    ensures Leq(s, Looked(p, s, v))
  {}

  /** Everything the operands answer, each in the state it was asked in, is in the union. */
  lemma {:induction false} GatherHolds(p: Program, s: State, ops: seq<nat>, n: nat)
    requires n <= |ops|
    ensures Leq(s, Gather(p, s, ops, n).0)
    ensures forall k: nat :: k < n ==> Taint(p, Gather(p, s, ops, k).0, ops[k]) <= Gather(p, s, ops, n).1
  {
    hide Taint, Looked, Leq;
    if n == 0 { LeqReflexive(s); return; }
    GatherHolds(p, s, ops, n - 1);
    var t := Gather(p, s, ops, n - 1).0;
    LookedGrows(p, t, ops[n - 1]);
    LeqTransitive(s, t, Looked(p, t, ops[n - 1]));
  }

  lemma {:induction false} PassArgsHolds(p: Program, s: State, c: Callee, args: seq<nat>, n: nat)
    requires n <= |args|
    ensures Leq(s, PassArgs(p, s, c, args, n))
    ensures forall a: nat :: a < n && c.argId(a) != "" ==>
              Taint(p, PassArgs(p, s, c, args, a), args[a]) <= IdTaint(PassArgs(p, s, c, args, n), c.argId(a))
  {
    hide Taint, Looked, Leq, AddId, IdTaint;
    if n == 0 { LeqReflexive(s); return; }
    PassArgsHolds(p, s, c, args, n - 1);
    var t, u := PassArgs(p, s, c, args, n - 1), PassArgs(p, s, c, args, n);
    var ds := Taint(p, t, args[n - 1]);
    if ds != {} {
      var l := Looked(p, t, args[n - 1]);
      LookedGrows(p, t, args[n - 1]);
      AddIdHolds(l, c.argId(n - 1), ds, false);
      LeqTransitive(t, l, u);
      LeqTransitive(s, t, u);
      forall a: nat | a < n - 1 ensures IdTaint(t, c.argId(a)) <= IdTaint(u, c.argId(a)) {
        DescsGrow(t, u, Glob(c.argId(a)));
      }
    }
  }

  lemma {:induction false} PassCalleesHolds(p: Program, s: State, cs: seq<Callee>, args: seq<nat>, n: nat)
    requires n <= |cs|
    ensures Leq(s, PassCallees(p, s, cs, args, n))
    ensures forall c: nat, a: nat :: c < n && !cs[c].skipped && a < |args| && cs[c].argId(a) != "" ==>
              Taint(p, PassArgs(p, PassCallees(p, s, cs, args, c), cs[c], args, a), args[a])
              <= IdTaint(PassCallees(p, s, cs, args, n), cs[c].argId(a))
  {
    hide Taint, Leq, PassArgs, IdTaint;
    if n == 0 { LeqReflexive(s); return; }
    PassCalleesHolds(p, s, cs, args, n - 1);
    var t, u := PassCallees(p, s, cs, args, n - 1), PassCallees(p, s, cs, args, n);
    if !cs[n - 1].skipped {
      PassArgsHolds(p, t, cs[n - 1], args, |args|);
      LeqTransitive(s, t, u);
      forall c: nat, a: nat | c < n - 1 ensures IdTaint(t, cs[c].argId(a)) <= IdTaint(u, cs[c].argId(a)) {
        DescsGrow(t, u, Glob(cs[c].argId(a)));
      }
    }
  }

  /** What operand k, or argument a of callee c, answers when the instruction is visited in state s. */
  function Answered(p: Program, s: State, i: Inst, k: nat): DescSet
    requires k < |i.operands|
  {
    Taint(p, Gather(p, Mark(p, s, i), i.operands, k).0, i.operands[k])
  }

  function AnsweredFor(p: Program, s: State, i: Inst, c: nat, a: nat): DescSet
    requires i.kind.CallInst? && i.v in p.callees && c < |p.callees[i.v]| && a < |i.kind.args|
  {
    var cs, args := p.callees[i.v], i.kind.args;
    Taint(p, PassArgs(p, PassCallees(p, Mark(p, s, i), cs, args, c), cs[c], args, a), args[a])
  }

  /** The identifiers an annotation marks have its description. */
  ghost predicate Credited(p: Program, i: Inst, t: State) {
    forall id :: Marks(p, i, id) ==> i.source.value in IdTaint(t, id)
  }

  /** All descriptions that an instruction visited in state s sees are where it puts them in t: its own
      in the identifiers it marks; those answered by operands in its value, and for a store or return
      in the identifier stored to; those answered by arguments in the parameters. */
  ghost predicate Delivered(p: Program, s: State, i: Inst, t: State) {
    && Credited(p, i, t)
    && (forall k: nat :: !i.kind.CallInst? && k < |i.operands| ==> Answered(p, s, i, k) <= Descs(t, Val(i.v)))
    && (forall k: nat, id ::
          k < |i.operands| && id != "" && (i.kind == StoreInst(Some(id)) || i.kind == ReturnInst(id)) ==>
          Answered(p, s, i, k) <= IdTaint(t, id))
    && (forall c: nat, a: nat, v: nat, id :: Passes(p, i, c, a, v, id) && id != "" ==>
          AnsweredFor(p, s, i, c, a) <= IdTaint(t, id))
  }

  lemma DeliveredStays(p: Program, s: State, i: Inst, t: State, u: State)
    requires Delivered(p, s, i, t) && Leq(t, u)
    ensures Delivered(p, s, i, u)
  {
    hide Answered, AnsweredFor, Passes, Leq, Descs, IdTaint;
    forall n ensures Descs(t, n) <= Descs(u, n) { DescsGrow(t, u, n); }
    forall id ensures IdTaint(t, id) <= IdTaint(u, id) {
      assert Descs(t, Glob(id)) <= Descs(u, Glob(id)) by { DescsGrow(t, u, Glob(id)); }
      GlobDescs(t, id);
      GlobDescs(u, id);
    }
  }

  lemma DeliveredSource(p: Program, s: State, i: Inst, t: State)
    requires Delivered(p, s, i, t)
    ensures Credited(p, i, t)
  {}

  lemma GlobDescs(s: State, id: Id)
    ensures Descs(s, Glob(id)) == IdTaint(s, id)
  {}

  lemma RunInstDelivers(p: Program, s: State, i: Inst)
    ensures Delivered(p, s, i, RunInst(p, s, i)) && Leq(s, RunInst(p, s, i))
  {
    hide Mark, Gather, PassCallees, PassArgs, Taint, Leq;
    var t, u := Mark(p, s, i), RunInst(p, s, i);
    MarkHolds(p, s, i);
    if i.kind.CallInst? {
      LeqReflexive(t);
      if i.v in p.callees { PassCalleesHolds(p, t, p.callees[i.v], i.kind.args, |p.callees[i.v]|); }
    } else {
      GatherHolds(p, t, i.operands, |i.operands|);
      var (w, ds) := Gather(p, t, i.operands, |i.operands|);
      if ds != {} {
        SpreadHolds(p, w, i, ds);
        LeqTransitive(t, w, u);
      }
    }
    LeqTransitive(s, t, u);
    forall id | Marks(p, i, id) ensures i.source.value in IdTaint(u, id) { DescsGrow(t, u, Glob(id)); }
  }

  lemma SpreadHolds(p: Program, s: State, i: Inst, ds: DescSet)
    ensures Leq(s, Spread(p, s, i, ds)) && ds <= Descs(Spread(p, s, i, ds), Val(i.v))
    ensures forall id :: id != "" && (i.kind == StoreInst(Some(id)) || i.kind == ReturnInst(id)) ==>
              ds <= IdTaint(Spread(p, s, i, ds), id)
  {}

  // ----- Whole sweeps

  lemma HasAt(p: Program, m: nat, f: nat, k: nat)
    requires p.Valid() && p.At(m, f, k)
    ensures p.Has(p.modules[m][f][k]) && p.ValidInst(p.modules[m][f][k])
  {}

  lemma {:induction false} RunFunctionKeeps(p: Program, s: State, m: nat, f: nat, n: nat)
    requires Inv(p, s) && p.Valid() && m < |p.modules| && f < |p.modules[m]| && n <= |p.modules[m][f]|
    ensures Inv(p, RunFunction(p, s, p.modules[m][f], n)) && Leq(s, RunFunction(p, s, p.modules[m][f], n))
  {
    hide Inv, Leq, RunInst, p.Valid;
    if n == 0 { LeqReflexive(s); return; }
    RunFunctionKeeps(p, s, m, f, n - 1);
    var t := RunFunction(p, s, p.modules[m][f], n - 1);
    HasAt(p, m, f, n - 1);
    RunInstKeeps(p, t, p.modules[m][f][n - 1]);
    LeqTransitive(s, t, RunInst(p, t, p.modules[m][f][n - 1]));
  }

  lemma {:induction false} SweepKeeps(p: Program, s: State, m: nat, n: nat)
    requires Inv(p, s) && p.Valid() && m < |p.modules| && n <= |p.modules[m]|
    ensures Inv(p, Sweep(p, s, p.modules[m], n)) && Leq(s, Sweep(p, s, p.modules[m], n))
  {
    hide Inv, Leq, RunFunction, p.Valid;
    if n == 0 { LeqReflexive(s); return; }
    SweepKeeps(p, s, m, n - 1);
    var t, f := Sweep(p, s, p.modules[m], n - 1), p.modules[m][n - 1];
    RunFunctionKeeps(p, t, m, n - 1, |f|);
    LeqTransitive(s, t, RunFunction(p, t, f, |f|));
  }

  lemma {:induction false} RoundKeeps(p: Program, s: State, n: nat)
    requires Inv(p, s) && p.Valid() && n <= |p.modules|
    ensures Inv(p, Round(p, s, n)) && Leq(s, Round(p, s, n))
  {
    hide Inv, Leq, Sweep, p.Valid;
    if n == 0 { LeqReflexive(s); return; }
    RoundKeeps(p, s, n - 1);
    var t, m := Round(p, s, n - 1), p.modules[n - 1];
    SweepKeeps(p, t, n - 1, |m|);
    LeqTransitive(s, t, Sweep(p, t, m, |m|));
  }

  /** What a step from u reaches, a run from s that passes it reaches. */
  ghost predicate Passed(p: Program, s: State, u: State, i: Inst, t: State) {
    Inv(p, u) && Leq(s, u) && Inv(p, t) && Leq(RunInst(p, u, i), t)
  }

  lemma PassedWithin(p: Program, s: State, s': State, u: State, i: Inst, t': State, t: State)
    requires Passed(p, s', u, i, t') && Leq(s, s') && Leq(t', t) && Inv(p, t)
    ensures Passed(p, s, u, i, t)
  {
    hide Inv, Leq, RunInst;
    LeqTransitive(s, s', u);
    LeqTransitive(RunInst(p, u, i), t', t);
  }

  lemma {:induction false} FunctionPasses(p: Program, s: State, m: nat, f: nat, n: nat, k: nat) returns (u: State)
    requires Inv(p, s) && p.Valid() && p.At(m, f, k) && k < n <= |p.modules[m][f]|
    ensures Passed(p, s, u, p.modules[m][f][k], RunFunction(p, s, p.modules[m][f], n))
    ensures u == RunFunction(p, s, p.modules[m][f], k)
  {
    hide Inv, Leq, RunInst, p.Valid;
    var body := p.modules[m][f];
    RunFunctionKeeps(p, s, m, f, n - 1);
    RunFunctionKeeps(p, s, m, f, n);
    var t := RunFunction(p, s, body, n - 1);
    if k == n - 1 {
      u := t;
      LeqReflexive(RunInst(p, t, body[k]));
    } else {
      u := FunctionPasses(p, s, m, f, n - 1, k);
      HasAt(p, m, f, n - 1);
      RunInstKeeps(p, t, body[n - 1]);
      LeqReflexive(s);
      PassedWithin(p, s, s, u, body[k], t, RunInst(p, t, body[n - 1]));
    }
  }

  lemma {:induction false} SweepPasses(p: Program, s: State, m: nat, n: nat, f: nat, k: nat) returns (u: State)
    requires Inv(p, s) && p.Valid() && p.At(m, f, k) && f < n <= |p.modules[m]|
    ensures Passed(p, s, u, p.modules[m][f][k], Sweep(p, s, p.modules[m], n))
    ensures u == RunFunction(p, Sweep(p, s, p.modules[m], f), p.modules[m][f], k)
  {
    hide Inv, Leq, RunFunction, p.Valid, Passed;
    var fs := p.modules[m];
    SweepKeeps(p, s, m, n - 1);
    SweepKeeps(p, s, m, n);
    var t := Sweep(p, s, fs, n - 1);
    var t' := RunFunction(p, t, fs[n - 1], |fs[n - 1]|);
    if f == n - 1 {
      u := FunctionPasses(p, t, m, f, |fs[f]|, k);
      LeqReflexive(t');
      PassedWithin(p, s, t, u, fs[f][k], t', t');
    } else {
      u := SweepPasses(p, s, m, n - 1, f, k);
      RunFunctionKeeps(p, t, m, n - 1, |fs[n - 1]|);
      LeqReflexive(s);
      PassedWithin(p, s, s, u, fs[f][k], t, t');
    }
  }

  /** The state in which a round from s comes to instruction k of a function. */
  function Before(p: Program, s: State, m: nat, f: nat, k: nat): State
    requires m < |p.modules| && f < |p.modules[m]| && k <= |p.modules[m][f]|
  {
    RunFunction(p, Sweep(p, Round(p, s, m), p.modules[m], f), p.modules[m][f], k)
  }

  lemma {:induction false} RoundPasses(p: Program, s: State, n: nat, m: nat, f: nat, k: nat) returns (u: State)
    requires Inv(p, s) && p.Valid() && p.At(m, f, k) && m < n <= |p.modules|
    ensures Passed(p, s, u, p.modules[m][f][k], Round(p, s, n))
    ensures u == Before(p, s, m, f, k)
  {
    hide Inv, Leq, Sweep, p.Valid, Passed;
    RoundKeeps(p, s, n - 1);
    RoundKeeps(p, s, n);
    var t, last := Round(p, s, n - 1), p.modules[n - 1];
    var t' := Sweep(p, t, last, |last|);
    if m == n - 1 {
      u := SweepPasses(p, t, m, |last|, f, k);
      LeqReflexive(t');
      PassedWithin(p, s, t, u, last[f][k], t', t');
    } else {
      u := RoundPasses(p, s, n - 1, m, f, k);
      SweepKeeps(p, t, n - 1, |last|);
      LeqReflexive(s);
      PassedWithin(p, s, s, u, p.modules[m][f][k], t, t');
    }
  }

  /** A round marks every annotated identifier, and taints everything that an instruction lets flow
      from a value that was tainted before the round. */
  lemma RoundReaches(p: Program, s: State, i: Inst)
    requires Inv(p, s) && p.Valid() && p.Has(i)
    ensures forall id :: Marks(p, i, id) ==> SourceId(Round(p, s, |p.modules|), id)
    ensures i.source.Some? ==> Tainted(p, Round(p, s, |p.modules|), Val(i.v))
    ensures forall a, b :: InstFlows(p, i, a, b) && Tainted(p, s, a) ==> Tainted(p, Round(p, s, |p.modules|), b)
  {
    hide Inv, Round, p.Valid, InstFlows, Marks, Taint, RunInst, p.ValidInst, Leq;
    var m: nat, f: nat, k: nat :| p.At(m, f, k) && p.modules[m][f][k] == i;
    var u := RoundPasses(p, s, |p.modules|, m, f, k);
    var t, w := RunInst(p, u, i), Round(p, s, |p.modules|);
    HasAt(p, m, f, k);
    RunInstKeeps(p, u, i);
    if i.source.Some? { TaintedStays(p, t, w, Val(i.v)); }
    forall id | Marks(p, i, id) ensures SourceId(w, id) { SourceStays(t, w, id); }
    forall a, b | InstFlows(p, i, a, b) && Tainted(p, s, a) ensures Tainted(p, w, b) {
      TaintedStays(p, s, u, a);
      TaintedStays(p, t, w, b);
    }
  }

  /** Whatever an instruction sees when a round comes to it is delivered at the end of the round. */
  lemma RoundDelivers(p: Program, s: State, m: nat, f: nat, k: nat)
    requires Inv(p, s) && p.Valid() && p.At(m, f, k)
    ensures Delivered(p, Before(p, s, m, f, k), p.modules[m][f][k], Round(p, s, |p.modules|))
  {
    hide Inv, Leq, Delivered, RunInst, Round, Before, p.Valid;
    var i := p.modules[m][f][k];
    var u := RoundPasses(p, s, |p.modules|, m, f, k);
    RunInstDelivers(p, u, i);
    DeliveredStays(p, u, i, RunInst(p, u, i), Round(p, s, |p.modules|));
  }

  /** In particular the descriptions stored for a value before the round flow on. */
  lemma RoundCarries(p: Program, s: State, i: Inst, a: Node, b: Node)
    requires Inv(p, s) && p.Valid() && p.Has(i) && InstFlows(p, i, a, b) && b != Glob("")
    ensures Descs(s, a) <= Descs(Round(p, s, |p.modules|), b)
  {
    hide Inv, Leq, RunInst, Round, p.Valid, Descs;
    var m: nat, f: nat, k: nat :| p.At(m, f, k) && p.modules[m][f][k] == i;
    var u := RoundPasses(p, s, |p.modules|, m, f, k);
    DescsGrow(s, u, a);
    RunInstCarries(p, u, i, a, b);
    DescsGrow(RunInst(p, u, i), Round(p, s, |p.modules|), b);
  }

  lemma RunInstCarries(p: Program, s: State, i: Inst, a: Node, b: Node)
    requires InstFlows(p, i, a, b) && b != Glob("")
    ensures Descs(s, a) <= Descs(RunInst(p, s, i), b)
  {
    hide Leq, Mark, Gather, PassCallees, PassArgs, RunInst;
    var t := Mark(p, s, i);
    MarkHolds(p, s, i);
    RunInstDelivers(p, s, i);
    DescsGrow(s, t, a);
    if b.Glob? && a.v == i.v && Marks(p, i, b.id) {
      PropagateGrows(p, t, i);
      RunInstIs(p, s, i);
      DescsGrow(t, RunInst(p, s, i), b);
    } else if c, n :| b.Glob? && Passes(p, i, c, n, a.v, b.id) {
      StoredIsAnsweredFor(p, s, i, c, n);
    } else {
      var k :| 0 <= k < |i.operands| && i.operands[k] == a.v;
      StoredIsAnswered(p, s, i, k);
    }
  }

  lemma RunInstIs(p: Program, s: State, i: Inst)
    ensures RunInst(p, s, i) == Propagate(p, Mark(p, s, i), i)
  {}

  lemma PropagateGrows(p: Program, s: State, i: Inst)
    ensures Leq(s, Propagate(p, s, i))
  {
    hide Mark, Gather, PassCallees, Leq, Spread;
    LeqReflexive(s);
    if i.kind.CallInst? {
      if i.v in p.callees { PassCalleesHolds(p, s, p.callees[i.v], i.kind.args, |p.callees[i.v]|); }
    } else {
      GatherHolds(p, s, i.operands, |i.operands|);
      var (w, ds) := Gather(p, s, i.operands, |i.operands|);
      SpreadHolds(p, w, i, ds);
      LeqTransitive(s, w, Spread(p, w, i, ds));
    }
  }

  lemma StoredIsAnswered(p: Program, s: State, i: Inst, k: nat)
    requires k < |i.operands|
    ensures Descs(s, Val(i.operands[k])) <= Answered(p, s, i, k)
  {
    hide Mark, Gather, Leq;
    MarkHolds(p, s, i);
    var t := Gather(p, Mark(p, s, i), i.operands, k).0;
    GatherHolds(p, Mark(p, s, i), i.operands, k);
    LeqTransitive(s, Mark(p, s, i), t);
    StoredIsTold(p, s, t, i.operands[k]);
  }

  lemma StoredIsTold(p: Program, s: State, t: State, v: nat)
    requires Leq(s, t)
    ensures Descs(s, Val(v)) <= Taint(p, t, v)
  {}

  lemma StoredIsAnsweredFor(p: Program, s: State, i: Inst, c: nat, a: nat)
    requires i.kind.CallInst? && i.v in p.callees && c < |p.callees[i.v]| && a < |i.kind.args|
    ensures Descs(s, Val(i.kind.args[a])) <= AnsweredFor(p, s, i, c, a)
  {
    hide Mark, PassCallees, PassArgs, Leq;
    var cs, args := p.callees[i.v], i.kind.args;
    var t := PassCallees(p, Mark(p, s, i), cs, args, c);
    var u := PassArgs(p, t, cs[c], args, a);
    MarkHolds(p, s, i);
    PassCalleesHolds(p, Mark(p, s, i), cs, args, c);
    PassArgsHolds(p, t, cs[c], args, a);
    LeqTransitive(s, Mark(p, s, i), t);
    LeqTransitive(s, t, u);
    StoredIsTold(p, s, u, args[a]);
  }

  // ----- What is tainted after an instruction has been visited for the last time

  /** From s to t, x becomes tainted at most by what it pulls from identifiers. */
  ghost predicate OnlyPulls(p: Program, s: State, t: State, x: nat) {
    GlobalsLeq(s, t) && (x in t.vts ==> x in s.vts || Pulled(p, t, x) != {})
  }

  lemma OnlyPullsTransitive(p: Program, s: State, t: State, u: State, x: nat)
    requires OnlyPulls(p, s, t, x) && OnlyPulls(p, t, u, x)
    ensures OnlyPulls(p, s, u, x)
  {
    hide Pulled;
    PulledGrows(p, t, u, x);
  }

  lemma LookedOnlyPulls(p: Program, s: State, v: nat, x: nat)
    ensures OnlyPulls(p, s, Looked(p, s, v), x)
  {
    hide Pulled;
    PulledGrows(p, s, Looked(p, s, v), x);
  }

  lemma {:induction false} GatherOnlyPulls(p: Program, s: State, ops: seq<nat>, n: nat, x: nat)
    requires n <= |ops|
    ensures OnlyPulls(p, s, Gather(p, s, ops, n).0, x)
  {
    hide Looked, Taint, OnlyPulls;
    if n == 0 { OnlyPullsItself(p, s, x); return; }
    GatherOnlyPulls(p, s, ops, n - 1, x);
    var t := Gather(p, s, ops, n - 1).0;
    LookedOnlyPulls(p, t, ops[n - 1], x);
    OnlyPullsTransitive(p, s, t, Looked(p, t, ops[n - 1]), x);
  }

  lemma OnlyPullsItself(p: Program, s: State, x: nat)
    ensures OnlyPulls(p, s, s, x)
  {}

  lemma AddIdOnlyPulls(p: Program, s: State, id: Id, ds: DescSet, isSource: bool, x: nat)
    ensures OnlyPulls(p, s, AddId(s, id, ds, isSource), x)
  {}

  lemma {:induction false} MarkMembersOnlyPulls(p: Program, s: State, ids: seq<Id>, ds: DescSet, n: nat, x: nat)
    requires n <= |ids|
    ensures OnlyPulls(p, s, MarkMembers(s, ids, ds, n), x)
  {
    hide OnlyPulls, AddId;
    if n == 0 { OnlyPullsItself(p, s, x); return; }
    MarkMembersOnlyPulls(p, s, ids, ds, n - 1, x);
    var t := MarkMembers(s, ids, ds, n - 1);
    AddIdOnlyPulls(p, t, ids[n - 1], ds, true, x);
    OnlyPullsTransitive(p, s, t, AddId(t, ids[n - 1], ds, true), x);
  }

  lemma MarkOnlyPulls(p: Program, s: State, i: Inst, x: nat)
    requires i.v != x
    ensures OnlyPulls(p, s, Mark(p, s, i), x)
  {
    hide AddId, MarkMembers;
    if i.source.Some? {
      var t := AddVal(s, i.v, {i.source.value});
      var u := AddId(t, p.valueId(i.v), t.vts[i.v], true);
      assert OnlyPulls(p, s, t, x);
      AddIdOnlyPulls(p, t, p.valueId(i.v), t.vts[i.v], true, x);
      OnlyPullsTransitive(p, s, t, u, x);
      MarkMembersOnlyPulls(p, u, i.memberIds, t.vts[i.v], |i.memberIds|, x);
      OnlyPullsTransitive(p, s, u, MarkMembers(u, i.memberIds, t.vts[i.v], |i.memberIds|), x);
    }
  }

  lemma {:induction false} PassArgsOnlyPulls(p: Program, s: State, c: Callee, args: seq<nat>, n: nat, x: nat)
    requires n <= |args|
    ensures OnlyPulls(p, s, PassArgs(p, s, c, args, n), x)
  {
    hide OnlyPulls, AddId, Looked, Taint;
    if n == 0 { OnlyPullsItself(p, s, x); return; }
    PassArgsOnlyPulls(p, s, c, args, n - 1, x);
    var t := PassArgs(p, s, c, args, n - 1);
    var ds, u := Taint(p, t, args[n - 1]), Looked(p, t, args[n - 1]);
    LookedOnlyPulls(p, t, args[n - 1], x);
    OnlyPullsTransitive(p, s, t, u, x);
    AddIdOnlyPulls(p, u, c.argId(n - 1), ds, false, x);
    OnlyPullsTransitive(p, s, u, AddId(u, c.argId(n - 1), ds, false), x);
  }

  lemma {:induction false} PassCalleesOnlyPulls(p: Program, s: State, cs: seq<Callee>, args: seq<nat>, n: nat, x: nat)
    requires n <= |cs|
    ensures OnlyPulls(p, s, PassCallees(p, s, cs, args, n), x)
  {
    hide OnlyPulls, PassArgs;
    if n == 0 { OnlyPullsItself(p, s, x); return; }
    PassCalleesOnlyPulls(p, s, cs, args, n - 1, x);
    var t := PassCallees(p, s, cs, args, n - 1);
    if !cs[n - 1].skipped {
      PassArgsOnlyPulls(p, t, cs[n - 1], args, |args|, x);
      OnlyPullsTransitive(p, s, t, PassArgs(p, t, cs[n - 1], args, |args|), x);
    }
  }

  lemma SpreadOnlyPulls(p: Program, s: State, i: Inst, ds: DescSet, x: nat)
    requires i.v != x
    ensures OnlyPulls(p, s, Spread(p, s, i, ds), x)
  {
    hide AddId;
    var t := AddVal(s, i.v, ds);
    assert OnlyPulls(p, s, t, x);
    match i.kind {
      case StoreInst(Some(id)) =>
        AddIdOnlyPulls(p, t, id, ds, false, x);
        OnlyPullsTransitive(p, s, t, AddId(t, id, ds, false), x);
      case ReturnInst(id) =>
        AddIdOnlyPulls(p, t, id, ds, false, x);
        OnlyPullsTransitive(p, s, t, AddId(t, id, ds, false), x);
      case _ =>
    }
  }

  /** An instruction taints no other result but through identifiers. */
  lemma RunInstOnlyPulls(p: Program, s: State, i: Inst, x: nat)
    requires i.v != x
    ensures OnlyPulls(p, s, RunInst(p, s, i), x)
  {
    hide OnlyPulls, Mark, Gather, PassCallees, Spread;
    var t := Mark(p, s, i);
    MarkOnlyPulls(p, s, i, x);
    if i.kind.CallInst? {
      if i.v in p.callees {
        PassCalleesOnlyPulls(p, t, p.callees[i.v], i.kind.args, |p.callees[i.v]|, x);
        OnlyPullsTransitive(p, s, t, RunInst(p, s, i), x);
      }
    } else {
      var (u, ds) := Gather(p, t, i.operands, |i.operands|);
      GatherOnlyPulls(p, t, i.operands, |i.operands|, x);
      OnlyPullsTransitive(p, s, t, u, x);
      SpreadOnlyPulls(p, u, i, ds, x);
      OnlyPullsTransitive(p, s, u, Spread(p, u, i, ds), x);
    }
  }

  lemma {:induction false} FunctionOnlyPulls(p: Program, s: State, f: Function, a: nat, n: nat, x: nat)
    requires a <= n <= |f| && forall k :: a <= k < n ==> f[k].v != x
    ensures OnlyPulls(p, RunFunction(p, s, f, a), RunFunction(p, s, f, n), x)
    decreases n
  {
    hide OnlyPulls, RunInst;
    var start := RunFunction(p, s, f, a);
    if a == n { OnlyPullsItself(p, start, x); return; }
    FunctionOnlyPulls(p, s, f, a, n - 1, x);
    var t := RunFunction(p, s, f, n - 1);
    RunInstOnlyPulls(p, t, f[n - 1], x);
    OnlyPullsTransitive(p, start, t, RunInst(p, t, f[n - 1]), x);
  }

  lemma {:induction false} SweepOnlyPulls(p: Program, s: State, m: Module, a: nat, n: nat, x: nat)
    requires a <= n <= |m| && forall f, k :: a <= f < n && 0 <= k < |m[f]| ==> m[f][k].v != x
    ensures OnlyPulls(p, Sweep(p, s, m, a), Sweep(p, s, m, n), x)
    decreases n
  {
    hide OnlyPulls, RunInst;
    var start := Sweep(p, s, m, a);
    if a == n { OnlyPullsItself(p, start, x); return; }
    SweepOnlyPulls(p, s, m, a, n - 1, x);
    var t := Sweep(p, s, m, n - 1);
    FunctionOnlyPulls(p, t, m[n - 1], 0, |m[n - 1]|, x);
    OnlyPullsTransitive(p, start, t, RunFunction(p, t, m[n - 1], |m[n - 1]|), x);
  }

  lemma {:induction false} RoundOnlyPulls(p: Program, s: State, a: nat, n: nat, x: nat)
    requires a <= n <= |p.modules|
    requires forall m: nat, f: nat, k: nat :: a <= m < n && p.At(m, f, k) ==> p.modules[m][f][k].v != x
    ensures OnlyPulls(p, Round(p, s, a), Round(p, s, n), x)
    decreases n
  {
    hide OnlyPulls, RunFunction;
    var start := Round(p, s, a);
    if a == n { OnlyPullsItself(p, start, x); return; }
    RoundOnlyPulls(p, s, a, n - 1, x);
    var t := Round(p, s, n - 1);
    var m: Module := p.modules[n - 1];
    forall f: nat, k: nat | f < |m| && k < |m[f]| ensures m[f][k].v != x {
      assert p.At(n - 1, f, k);
    }
    SweepOnlyPulls(p, t, m, 0, |m|, x);
    OnlyPullsTransitive(p, start, t, Sweep(p, t, m, |m|), x);
  }

  // ----- When the pass does reach a fixpoint

  /** Every instruction is its own value. */
  ghost predicate DistinctResults(p: Program) {
    forall m: nat, f: nat, k: nat, m': nat, f': nat, k': nat ::
      p.At(m, f, k) && p.At(m', f', k') && p.modules[m][f][k].v == p.modules[m'][f'][k'].v ==>
        m == m' && f == f' && k == k'
  }

  predicate Reads(i: Inst, x: nat) {
    if i.kind.CallInst? then x in i.kind.args else x in i.operands
  }

  predicate ComputedBefore(f: Function, k: nat, x: nat)
    requires k < |f|
  {
    exists j :: 0 <= j < k && f[j].v == x
  }

  /** What an instruction reads is computed by an earlier instruction of the function, or by none at
      all; and where stripping casts looks through its value, it is a cast that reads what is below. */
  ghost predicate OrderedAt(p: Program, f: Function, k: nat)
    requires k < |f|
  {
    && (forall x :: Reads(f[k], x) ==> ComputedBefore(f, k, x) || (!IsResult(p, x) && p.strip(x) == x))
    && (p.strip(f[k].v) != f[k].v ==>
          !f[k].kind.CallInst? && exists y :: y in f[k].operands && p.strip(y) == p.strip(f[k].v))
  }

  /** Results are computed before they are read: in particular, no PHI reads over a back edge. */
  ghost predicate Ordered(p: Program) {
    DistinctResults(p) && forall m: nat, f: nat, k: nat :: p.At(m, f, k) ==> OrderedAt(p, p.modules[m][f], k)
  }

  /** Whatever an instruction lets flow from something tainted is tainted. */
  ghost predicate Closed(p: Program, s: State) {
    forall i, a, b :: p.Has(i) && InstFlows(p, i, a, b) && Tainted(p, s, a) ==> Tainted(p, s, b)
  }

  lemma {:induction false} ReturnedByKeys(p: Program, s: State, t: State, cs: seq<Callee>, n: nat)
    requires Inv(p, t) && s.gts.Keys <= t.gts.Keys && n <= |cs| && Returned(s, cs, n) != {}
    ensures Returned(t, cs, n) != {}
  {
    hide AllDerived, MarkedId, IsResult, Pulled;
    if Returned(s, cs, n - 1) != {} {
      ReturnedByKeys(p, s, t, cs, n - 1);
    } else {
      assert IdTaint(s, cs[n - 1].retId) != {};
    }
  }

  /** Whether a value pulls anything only depends on which identifiers are tainted. */
  lemma PulledByKeys(p: Program, s: State, t: State, v: nat)
    requires Inv(p, t) && s.gts.Keys <= t.gts.Keys && Pulled(p, s, v) != {}
    ensures Pulled(p, t, v) != {} && Tainted(p, t, Val(v))
  {
    hide AllDerived, MarkedId, IsResult;
    if v in p.callees && Returned(s, p.callees[v], |p.callees[v]|) != {} {
      ReturnedByKeys(p, s, t, p.callees[v], |p.callees[v]|);
    } else {
      assert IdTaint(s, p.valueId(v)) != {};
      assert IdTaint(t, p.valueId(v)) != {};
    }
  }

  /** After its visit, an instruction's value is only tainted through identifiers. */
  lemma AfterVisit(p: Program, s: State, m: nat, f: nat, k: nat)
    requires DistinctResults(p) && p.At(m, f, k)
    ensures var i := p.modules[m][f][k];
            OnlyPulls(p, RunInst(p, Before(p, s, m, f, k), i), Round(p, s, |p.modules|), i.v)
  {
    hide OnlyPulls, RunInst;
    var body, x := p.modules[m][f], p.modules[m][f][k].v;
    forall m': nat, f': nat, k': nat | p.At(m', f', k') && (m' != m || f' != f || k' != k)
      ensures p.modules[m'][f'][k'].v != x
    {
    }
    var sm := Round(p, s, m);
    var sf := Sweep(p, sm, p.modules[m], f);
    assert RunFunction(p, sf, body, k + 1) == RunInst(p, Before(p, s, m, f, k), body[k]);
    forall k' | k + 1 <= k' < |body| ensures body[k'].v != x { assert p.At(m, f, k'); }
    FunctionOnlyPulls(p, sf, body, k + 1, |body|, x);
    forall f': nat, k': nat | f + 1 <= f' < |p.modules[m]| && k' < |p.modules[m][f']|
      ensures p.modules[m][f'][k'].v != x
    {
      assert p.At(m, f', k');
    }
    SweepOnlyPulls(p, sm, p.modules[m], f + 1, |p.modules[m]|, x);
    RoundOnlyPulls(p, s, m + 1, |p.modules|, x);
    OnlyPullsTransitive(p, RunFunction(p, sf, body, k + 1), Sweep(p, sm, p.modules[m], f + 1), Round(p, s, m + 1), x);
    OnlyPullsTransitive(p, RunFunction(p, sf, body, k + 1), Round(p, s, m + 1), Round(p, s, |p.modules|), x);
  }

  /** A closing round: no identifier is new. */
  ghost predicate Closing(p: Program, s: State) {
    p.Valid() && Ordered(p) && Inv(p, s) && s.gts.Keys == Round(p, s, |p.modules|).gts.Keys
  }

  /** The value of an instruction that is tainted in the end was tainted once it had been visited. */
  lemma {:induction false} ResultInTime(p: Program, s: State, m: nat, f: nat, k: nat)
    requires Closing(p, s) && p.At(m, f, k)
    requires Tainted(p, Round(p, s, |p.modules|), Val(p.modules[m][f][k].v))
    ensures var i := p.modules[m][f][k]; Tainted(p, RunInst(p, Before(p, s, m, f, k), i), Val(i.v))
    decreases k, 1
  {
    hide Inv, RunInst, Round, Before, Pulled, p.Valid, Leq;
    var i, end := p.modules[m][f][k], Round(p, s, |p.modules|);
    var u := RoundPasses(p, s, |p.modules|, m, f, k);
    HasAt(p, m, f, k);
    var t := RunInst(p, u, i);
    RunInstKeeps(p, u, i);
    LeqTransitive(s, u, t);
    KeysBetween(s, t, end);
    if Pulled(p, end, i.v) != {} {
      PulledByKeys(p, end, t, i.v);
    } else if i.v in end.vts {
      AfterVisit(p, s, m, f, k);
      ValIsTainted(p, t, i.v);
    } else {
      assert p.strip(i.v) in end.vts && p.strip(i.v) != i.v;
      assert OrderedAt(p, p.modules[m][f], k);
      var y :| y in i.operands && p.strip(y) == p.strip(i.v);
      StrippedTainted(p, end, y);
      ReadInTime(p, s, m, f, k, y);
      assert InstFlows(p, i, Val(y), Val(i.v));
    }
  }

  /** So was what an instruction reads, when the instruction was visited. */
  lemma {:induction false} ReadInTime(p: Program, s: State, m: nat, f: nat, k: nat, x: nat)
    requires Closing(p, s) && p.At(m, f, k) && Reads(p.modules[m][f][k], x)
    requires Tainted(p, Round(p, s, |p.modules|), Val(x))
    ensures Tainted(p, Before(p, s, m, f, k), Val(x))
    decreases k, 0
  {
    hide Inv, RunInst, Round, Before, Pulled, p.Valid, Leq;
    var body, end := p.modules[m][f], Round(p, s, |p.modules|);
    var u := RoundPasses(p, s, |p.modules|, m, f, k);
    assert OrderedAt(p, body, k);
    if ComputedBefore(body, k, x) {
      var j: nat :| j < k && body[j].v == x;
      assert p.At(m, f, j);
      ResultInTime(p, s, m, f, j);
      var w := VisitedBefore(p, s, m, f, k, j);
      TaintedStays(p, RunInst(p, w, body[j]), u, Val(x));
    } else {
      RoundKeeps(p, s, |p.modules|);
      OutsidePulls(p, end, x);
      PulledByKeys(p, end, s, x);
      TaintedStays(p, s, u, Val(x));
    }
  }

  lemma KeysBetween(s: State, t: State, u: State)
    requires Leq(s, t) && Leq(t, u) && s.gts.Keys == u.gts.Keys
    ensures t.gts.Keys == u.gts.Keys
  {}

  lemma StrippedTainted(p: Program, s: State, v: nat)
    requires Inv(p, s) && p.strip(v) in s.vts
    ensures Tainted(p, s, Val(v))
  {
    hide AllDerived, MarkedId, IsResult, Pulled;
  }

  /** A tainted value that is no result, and is not a cast of anything, pulls from identifiers. */
  lemma OutsidePulls(p: Program, s: State, x: nat)
    requires Inv(p, s) && !IsResult(p, x) && p.strip(x) == x && Tainted(p, s, Val(x))
    ensures Pulled(p, s, x) != {}
  {
    hide AllDerived, MarkedId, IsResult, Pulled;
  }

  lemma VisitedBefore(p: Program, s: State, m: nat, f: nat, k: nat, j: nat) returns (w: State)
    requires p.Valid() && Inv(p, s) && p.At(m, f, k) && j < k
    ensures w == Before(p, s, m, f, j) && Inv(p, Before(p, s, m, f, k))
    ensures Leq(RunInst(p, w, p.modules[m][f][j]), Before(p, s, m, f, k))
  {
    hide Inv, RunInst, Leq, p.Valid;
    RoundKeeps(p, s, m);
    SweepKeeps(p, Round(p, s, m), m, f);
    w := FunctionPasses(p, Sweep(p, Round(p, s, m), p.modules[m], f), m, f, k, j);
  }

  /** If results are computed before they are read, the state after a closing round is closed. */
  lemma ClosedAfterRound(p: Program, s: State)
    requires Closing(p, s)
    ensures Closed(p, Round(p, s, |p.modules|))
  {
    hide Inv, RunInst, Round, Before, Taint, p.Valid, InstFlows, Marks, Leq;
    var end := Round(p, s, |p.modules|);
    forall i, a, b | p.Has(i) && InstFlows(p, i, a, b) && Tainted(p, end, a) ensures Tainted(p, end, b) {
      FlowInTime(p, s, i, a, b);
    }
  }

  lemma FlowInTime(p: Program, s: State, i: Inst, a: Node, b: Node)
    requires Closing(p, s) && p.Has(i) && InstFlows(p, i, a, b) && Tainted(p, Round(p, s, |p.modules|), a)
    ensures Tainted(p, Round(p, s, |p.modules|), b)
  {
    hide Inv, RunInst, Round, Before, Taint, p.Valid, Marks, Leq;
    var end := Round(p, s, |p.modules|);
    if b.Glob? && Marks(p, i, b.id) {
      RoundReaches(p, s, i);
    } else {
      assert Reads(i, a.v);
      var m: nat, f: nat, k: nat :| p.At(m, f, k) && p.modules[m][f][k] == i;
      ReadInTime(p, s, m, f, k, a.v);
      var u := RoundPasses(p, s, |p.modules|, m, f, k);
      HasAt(p, m, f, k);
      RunInstKeeps(p, u, i);
      TaintedStays(p, RunInst(p, u, i), end, b);
    }
  }

  lemma {:induction false} NothingReturned(s: State, cs: seq<Callee>, n: nat)
    requires s.gts == map[] && n <= |cs|
    ensures Returned(s, cs, n) == {}
  {
    if n > 0 { NothingReturned(s, cs, n - 1); }
  }

  lemma NothingPulled(p: Program, s: State, v: nat)
    requires s == State(map[], map[])
    ensures !Tainted(p, s, Val(v))
  {
    if v in p.callees { NothingReturned(s, p.callees[v], |p.callees[v]|); }
  }

  lemma DerivedHasSource(p: Program, n: Node, d: Desc)
    requires Derived(p, n, d)
    ensures exists i :: p.Has(i) && i.source == Some(d)
  {
    hide Flows;
    var path :| Chain(p, path, n, d);
    assert IsSource(p, path[0], d);
  }

  /** The order is not necessary: without annotations nothing is tainted, in whatever order. */
  lemma NothingWithoutSources(p: Program, s: State)
    requires Inv(p, s) && forall i :: p.Has(i) ==> i.source.None?
    ensures s == State(map[], map[]) && Closed(p, s)
  {
    hide Pulled, MarkedId, Derived;
    forall n, d | Derived(p, n, d) ensures exists i :: p.Has(i) && i.source == Some(d) {
      DerivedHasSource(p, n, d);
    }
    assert forall v :: v !in s.vts;
    assert forall id :: id !in s.gts;
    forall v: nat ensures !Tainted(p, s, Val(v)) {
      NothingPulled(p, s, v);
    }
  }

  // ----- The pass

  class TaintMap {
    var GTS: map<Id, (DescSet, bool)>
    var VTS: map<nat, DescSet>

    constructor ()
      ensures Contents() == State(map[], map[])
    {
      GTS, VTS := map[], map[];
    }

    function Contents(): State
      reads this
    {
      State(GTS, VTS)
    }

    method AddValue(v: nat, ds: DescSet)
      modifies this
      ensures Contents() == AddVal(old(Contents()), v, ds)
      ensures Descs(Contents(), Val(v)) == Descs(old(Contents()), Val(v)) + ds
    {
      VTS := VTS[v := (if v in VTS then VTS[v] else {}) + ds];
    }

    /** Only the first description of an identifier is reported as a change. */
    method AddIdentifier(id: Id, ds: DescSet, isSource: bool) returns (isNew: bool)
      modifies this
      ensures Contents() == AddId(old(Contents()), id, ds, isSource)
      ensures isNew == (id != "" && IdTaint(old(Contents()), id) == {})
      ensures id != "" ==> id in GTS && GTS[id].0 == ds + (if id in old(GTS) then old(GTS)[id].0 else {})
      ensures forall x :: x != id && (x in GTS || x in old(GTS)) ==> x in GTS && x in old(GTS) && GTS[x] == old(GTS)[x]
    {
      if id == "" { return false; }
      var entry := if id in GTS then GTS[id] else ({}, false);
      isNew := entry.0 == {};
      GTS := GTS[id := (entry.0 + ds, entry.1 || isSource)];
    }

    method GetValue(v: nat) returns (ds: Option<DescSet>)
      ensures ds == if v in VTS then Some(VTS[v]) else None
    {
      ds := if v in VTS then Some(VTS[v]) else None;
    }

    method GetIdentifier(id: Id) returns (ds: Option<DescSet>)
      ensures ds == if id != "" && id in GTS then Some(GTS[id].0) else None
    {
      if id == "" { return None; }
      ds := if id in GTS then Some(GTS[id].0) else None;
    }

    method IsSource(id: Id) returns (r: bool)
      ensures r == SourceId(Contents(), id)
    {
      if id == "" { return false; }
      r := id in GTS && GTS[id].1;
    }
  }

  lemma AddIdIsNew(p: Program, s: State, id: Id, ds: DescSet, isSource: bool)
    requires Inv(p, s)
    ensures (id != "" && IdTaint(s, id) == {}) == (AddId(s, id, ds, isSource).gts.Keys != s.gts.Keys)
    ensures s.gts.Keys <= AddId(s, id, ds, isSource).gts.Keys
  {
    hide AllDerived, MarkedId;
  }

  lemma AddValTwice(s: State, v: nat, a: DescSet, b: DescSet)
    requires v !in s.vts
    ensures AddVal(AddVal(s, v, a), v, b) == AddVal(s, v, a + b)
    ensures a == {} ==> a + b == b
    ensures b == {} ==> a + b == a
  {
    assert {} + (a + b) == a + b && {} + a == a;
    assert s.vts[v := a][v := a + b] == s.vts[v := a + b];
  }

  class TaintPass {
    const p: Program
    const tm: TaintMap

    constructor (p: Program)
      ensures this.p == p && fresh(tm) && tm.Contents() == State(map[], map[])
    {
      this.p := p;
      tm := new TaintMap();
    }

    /** The taint of every callee's result is added to the call, in turn. */
    method PullReturns(v: nat)
      requires Inv(p, tm.Contents()) && v in p.callees && v !in tm.VTS
      modifies tm
      ensures tm.Contents() ==
              (var s := old(tm.Contents()); var ds := Returned(s, p.callees[v], |p.callees[v]|);
               if ds == {} then s else AddVal(s, v, ds))
    {
      hide Inv;
      ghost var s := tm.Contents();
      var cs := p.callees[v];
      var c := 0;
      while c < |cs|
        invariant 0 <= c <= |cs|
        invariant tm.Contents() == if Returned(s, cs, c) == {} then s else AddVal(s, v, Returned(s, cs, c))
      {
        var ds := tm.GetIdentifier(cs[c].retId);
        IdTaintNonEmpty(p, s, cs[c].retId);
        AddValTwice(s, v, Returned(s, cs, c), IdTaint(s, cs[c].retId));
        if ds.Some? { tm.AddValue(v, ds.value); }
        c := c + 1;
      }
    }

    method GetTaint(v: nat) returns (r: Option<DescSet>)
      requires Inv(p, tm.Contents())
      modifies tm
      ensures tm.Contents() == Looked(p, old(tm.Contents()), v)
      ensures r == (var ds := Taint(p, old(tm.Contents()), v); if ds == {} then None else Some(ds))
    {
      hide Inv, Returned;
      ghost var s := tm.Contents();
      ValIsTainted(p, s, v);
      ValIsTainted(p, s, p.strip(v));
      r := tm.GetValue(v);
      if r.Some? { Stored(p, s, v); return; }
      r := tm.GetValue(p.strip(v));
      if r.Some? { Stored(p, s, p.strip(v)); return; }
      if v in p.callees { PullReturns(v); }
      ghost var returned := if v in p.callees then Returned(s, p.callees[v], |p.callees[v]|) else {};
      AddValTwice(s, v, returned, IdTaint(s, p.valueId(v)));
      IdTaintNonEmpty(p, s, p.valueId(v));
      var ds := tm.GetIdentifier(p.valueId(v));
      if ds.Some? { tm.AddValue(v, ds.value); }
      assert {} + Pulled(p, s, v) == Pulled(p, s, v);
      r := tm.GetValue(v);
    }

    /** changed is set when the identifier had no description; s is the state it counts from. */
    method AddGlobal(ghost s: State, changed: bool, id: Id, ds: DescSet, isSource: bool) returns (changed': bool)
      requires Inv(p, tm.Contents()) && p.Known(id) && ds != {} && (id != "" ==> AllDerived(p, Glob(id), ds))
      requires isSource && id != "" ==> MarkedId(p, id)
      requires GrewFrom(s, tm.Contents(), changed)
      modifies tm
      ensures tm.Contents() == AddId(old(tm.Contents()), id, ds, isSource)
      ensures Inv(p, tm.Contents()) && GrewFrom(s, tm.Contents(), changed')
    {
      hide Inv, AllDerived, MarkedId;
      AddIdKeeps(p, tm.Contents(), id, ds, isSource);
      AddIdIsNew(p, tm.Contents(), id, ds, isSource);
      var isNew := tm.AddIdentifier(id, ds, isSource);
      changed' := changed || isNew;
    }

    method CheckTaintSource(i: Inst) returns (changed: bool)
      requires Inv(p, tm.Contents()) && p.Has(i) && p.ValidInst(i)
      modifies tm
      ensures tm.Contents() == Mark(p, old(tm.Contents()), i)
      ensures GrewFrom(old(tm.Contents()), tm.Contents(), changed)
    {
      hide Inv, AllDerived, MarkedId;
      ghost var s := tm.Contents();
      if i.source.None? { return false; }
      DerivedSource(p, i);
      AddValKeeps(p, s, i.v, {i.source.value});
      tm.AddValue(i.v, {i.source.value});
      var ds := tm.VTS[i.v];
      AnnotatedDerived(p, tm.Contents(), i);
      changed := AddGlobal(s, false, p.valueId(i.v), ds, true);
      ghost var t := tm.Contents();
      var k := 0;
      while k < |i.memberIds|
        invariant 0 <= k <= |i.memberIds| && tm.Contents() == MarkMembers(t, i.memberIds, ds, k)
        invariant Inv(p, tm.Contents()) && GrewFrom(s, tm.Contents(), changed)
      {
        changed := AddGlobal(s, changed, i.memberIds[k], ds, true);
        k := k + 1;
      }
    }

    method PassToCallee(ghost s: State, changed: bool, i: Inst, c: nat) returns (changed': bool)
      requires Inv(p, tm.Contents()) && GrewFrom(s, tm.Contents(), changed)
      requires p.Has(i) && p.ValidInst(i) && i.kind.CallInst? && i.v in p.callees
      requires c < |p.callees[i.v]| && !p.callees[i.v][c].skipped
      modifies tm
      ensures tm.Contents() == PassArgs(p, old(tm.Contents()), p.callees[i.v][c], i.kind.args, |i.kind.args|)
      ensures Inv(p, tm.Contents()) && GrewFrom(s, tm.Contents(), changed')
    {
      hide Inv, Taint, Pulled, AllDerived, MarkedId;
      var callee, args := p.callees[i.v][c], i.kind.args;
      ghost var t := tm.Contents();
      changed' := changed;
      var a := 0;
      while a < |args|
        invariant 0 <= a <= |args| && tm.Contents() == PassArgs(p, t, callee, args, a)
        invariant Inv(p, tm.Contents()) && GrewFrom(s, tm.Contents(), changed')
      {
        ghost var u := tm.Contents();
        TaintDerived(p, u, args[a]);
        var ds := GetTaint(args[a]);
        if ds.Some? {
          assert Passes(p, i, c, a, args[a], callee.argId(a));
          DerivedStep(p, Val(args[a]), Glob(callee.argId(a)), ds.value);
          changed' := AddGlobal(s, changed', callee.argId(a), ds.value, false);
        } else {
          NothingLooked(p, u, args[a]);
        }
        a := a + 1;
      }
    }

    method RunOnCall(ghost s: State, changed: bool, i: Inst) returns (changed': bool)
      requires Inv(p, tm.Contents()) && GrewFrom(s, tm.Contents(), changed)
      requires p.Has(i) && p.ValidInst(i) && i.kind.CallInst?
      modifies tm
      ensures tm.Contents() == Propagate(p, old(tm.Contents()), i)
      ensures Inv(p, tm.Contents()) && GrewFrom(s, tm.Contents(), changed')
    {
      hide Inv, PassArgs, AllDerived, MarkedId, p.ValidInst;
      changed' := changed;
      if i.v !in p.callees { return; }
      var cs := p.callees[i.v];
      ghost var t := tm.Contents();
      var c := 0;
      while c < |cs|
        invariant 0 <= c <= |cs| && tm.Contents() == PassCallees(p, t, cs, i.kind.args, c)
        invariant Inv(p, tm.Contents()) && GrewFrom(s, tm.Contents(), changed')
      {
        if !cs[c].skipped { changed' := PassToCallee(s, changed', i, c); }
        c := c + 1;
      }
    }

    method GatherOperands(i: Inst) returns (ds: DescSet)
      requires Inv(p, tm.Contents()) && p.Has(i)
      modifies tm
      ensures (tm.Contents(), ds) == Gather(p, old(tm.Contents()), i.operands, |i.operands|)
      ensures old(tm.GTS) == tm.GTS
    {
      hide Inv, Taint, Pulled;
      ghost var s := tm.Contents();
      ds := {};
      var k := 0;
      while k < |i.operands|
        invariant 0 <= k <= |i.operands| && (tm.Contents(), ds) == Gather(p, s, i.operands, k)
        invariant old(tm.GTS) == tm.GTS
      {
        GatherKeeps(p, s, i, k);
        var d := GetTaint(i.operands[k]);
        assert ds + {} == ds;
        if d.Some? { ds := ds + d.value; }
        k := k + 1;
      }
    }

    method RunOnOperands(ghost s: State, changed: bool, i: Inst) returns (changed': bool)
      requires Inv(p, tm.Contents()) && GrewFrom(s, tm.Contents(), changed)
      requires p.Has(i) && p.ValidInst(i) && !i.kind.CallInst?
      modifies tm
      ensures tm.Contents() == Propagate(p, old(tm.Contents()), i)
      ensures Inv(p, tm.Contents()) && GrewFrom(s, tm.Contents(), changed')
    {
      hide Inv, Gather, AllDerived, MarkedId;
      GatherKeeps(p, tm.Contents(), i, |i.operands|);
      var ds := GatherOperands(i);
      changed' := changed;
      if ds == {} { return; }
      AddValKeeps(p, tm.Contents(), i.v, ds);
      tm.AddValue(i.v, ds);
      match i.kind {
        case StoreInst(Some(id)) => changed' := AddGlobal(s, changed, id, ds, false);
        case ReturnInst(id) => changed' := AddGlobal(s, changed, id, ds, false);
        case _ =>
      }
    }

    method RunOnInst(ghost s: State, changed: bool, i: Inst) returns (changed': bool)
      requires Inv(p, tm.Contents()) && GrewFrom(s, tm.Contents(), changed)
      requires p.Has(i) && p.ValidInst(i)
      modifies tm
      ensures tm.Contents() == RunInst(p, old(tm.Contents()), i)
      ensures Inv(p, tm.Contents()) && GrewFrom(s, tm.Contents(), changed')
    {
      hide Inv, Mark, Propagate, p.ValidInst;
      MarkKeeps(p, tm.Contents(), i);
      var marked := CheckTaintSource(i);
      if i.kind.CallInst? {
        changed' := RunOnCall(s, changed || marked, i);
      } else {
        changed' := RunOnOperands(s, changed || marked, i);
      }
    }

    method RunOnFunction(ghost s: State, changed: bool, m: nat, f: nat) returns (changed': bool)
      requires Inv(p, tm.Contents()) && GrewFrom(s, tm.Contents(), changed)
      requires p.Valid() && m < |p.modules| && f < |p.modules[m]|
      modifies tm
      ensures tm.Contents() == RunFunction(p, old(tm.Contents()), p.modules[m][f], |p.modules[m][f]|)
      ensures Inv(p, tm.Contents()) && GrewFrom(s, tm.Contents(), changed')
    {
      hide Inv, RunInst, p.Valid;
      var body := p.modules[m][f];
      ghost var t := tm.Contents();
      changed' := changed;
      var k := 0;
      while k < |body|
        invariant 0 <= k <= |body| && tm.Contents() == RunFunction(p, t, body, k)
        invariant Inv(p, tm.Contents()) && GrewFrom(s, tm.Contents(), changed')
      {
        HasAt(p, m, f, k);
        changed' := RunOnInst(s, changed', body[k]);
        k := k + 1;
      }
    }

    /** One sweep over a module. */
    method RunOnModule(m: nat) returns (changed: bool)
      requires Inv(p, tm.Contents()) && p.Valid() && m < |p.modules|
      modifies tm
      ensures tm.Contents() == Sweep(p, old(tm.Contents()), p.modules[m], |p.modules[m]|)
      ensures Inv(p, tm.Contents()) && GrewFrom(old(tm.Contents()), tm.Contents(), changed)
    {
      hide Inv, RunFunction, p.Valid;
      ghost var s := tm.Contents();
      changed := false;
      var f := 0;
      while f < |p.modules[m]|
        invariant 0 <= f <= |p.modules[m]| && tm.Contents() == Sweep(p, s, p.modules[m], f)
        invariant Inv(p, tm.Contents()) && GrewFrom(s, tm.Contents(), changed)
      {
        changed := RunOnFunction(s, changed, m, f);
        f := f + 1;
      }
    }

    /** Sweeps until no new identifier is tainted; every changed sweep adds one, which pays for it. */
    method DoModulePass(m: nat, ghost sweeps: nat) returns (ret: bool, ghost sweeps': nat)
      requires Inv(p, tm.Contents()) && p.Valid() && m < |p.modules| && sweeps <= |tm.GTS.Keys|
      modifies tm
      ensures Inv(p, tm.Contents()) && Leq(old(tm.Contents()), tm.Contents())
      ensures GrewFrom(old(tm.Contents()), tm.Contents(), ret)
      ensures sweeps <= sweeps' <= |tm.GTS.Keys| && (ret <==> sweeps' > sweeps)
      ensures !ret ==> tm.Contents() == Sweep(p, old(tm.Contents()), p.modules[m], |p.modules[m]|)
    {
      hide Inv, Leq, Sweep, p.Valid;
      ghost var s := tm.Contents();
      var changed := true;
      ret, sweeps' := false, sweeps;
      LeqReflexive(s);
      while changed
        invariant Inv(p, tm.Contents()) && Leq(s, tm.Contents()) && GrewFrom(s, tm.Contents(), ret)
        invariant sweeps <= sweeps' <= |tm.GTS.Keys| && (ret <==> sweeps' > sweeps)
        invariant if changed then ret || tm.Contents() == s
                  else ret || tm.Contents() == Sweep(p, s, p.modules[m], |p.modules[m]|)
        decreases |p.ids| - |tm.GTS.Keys|, changed
      {
        ghost var t := tm.Contents();
        SweepKeeps(p, t, m, |p.modules[m]|);
        changed := RunOnModule(m);
        LeqTransitive(s, t, tm.Contents());
        CardinalityBelow(t.gts.Keys, tm.GTS.Keys);
        BoundedKeys(p, tm.Contents());
        if changed { sweeps' := sweeps' + 1; }
        ret := ret || changed;
      }
    }

    method RunRound(ghost sweeps: nat) returns (changed: nat, ghost sweeps': nat)
      requires Inv(p, tm.Contents()) && p.Valid() && sweeps <= |tm.GTS.Keys|
      modifies tm
      ensures Inv(p, tm.Contents()) && Leq(old(tm.Contents()), tm.Contents())
      ensures GrewFrom(old(tm.Contents()), tm.Contents(), changed > 0)
      ensures sweeps <= sweeps' <= |tm.GTS.Keys|
      ensures changed == 0 ==> tm.Contents() == Round(p, old(tm.Contents()), |p.modules|)
    {
      hide Inv, Leq, Sweep, p.Valid;
      ghost var s := tm.Contents();
      changed, sweeps' := 0, sweeps;
      LeqReflexive(s);
      var m := 0;
      while m < |p.modules|
        invariant 0 <= m <= |p.modules| && Inv(p, tm.Contents()) && Leq(s, tm.Contents())
        invariant GrewFrom(s, tm.Contents(), changed > 0) && sweeps <= sweeps' <= |tm.GTS.Keys|
        invariant changed == 0 ==> tm.Contents() == Round(p, s, m)
      {
        ghost var t := tm.Contents();
        var ret;
        ret, sweeps' := DoModulePass(m, sweeps');
        LeqTransitive(s, t, tm.Contents());
        if ret { changed := changed + 1; }
        m := m + 1;
      }
    }

    /** The whole iteration. It ends, after at most as many changed sweeps as there are identifiers;
        all taint is derived from sources, and the sources are exactly the marked identifiers. last is
        the state before the closing round, in which no identifier was added: whatever an
        instruction lets flow from a value tainted in it, is tainted at the end. If results are
        computed before they are read, all of the end state is closed in this way. */
    method Run() returns (ghost sweeps: nat, ghost last: State)
      requires tm.Contents() == State(map[], map[]) && p.Valid()
      modifies tm
      ensures Inv(p, tm.Contents()) && sweeps <= |tm.GTS.Keys| <= |p.ids|
      ensures forall id :: SourceId(tm.Contents(), id) <==> MarkedId(p, id)
      ensures Inv(p, last) && Leq(last, tm.Contents()) && last.gts.Keys == tm.GTS.Keys
      ensures forall i, a, b :: p.Has(i) && InstFlows(p, i, a, b) && Tainted(p, last, a) ==>
                Tainted(p, tm.Contents(), b)
      ensures Ordered(p) ==> Closed(p, tm.Contents())
      ensures forall m: nat, f: nat, k: nat :: p.At(m, f, k) ==>
                Delivered(p, Before(p, last, m, f, k), p.modules[m][f][k], tm.Contents())
      ensures forall i, a, b :: p.Has(i) && InstFlows(p, i, a, b) && b != Glob("") ==>
                Descs(last, a) <= Descs(tm.Contents(), b)
      ensures forall i :: p.Has(i) ==> Credited(p, i, tm.Contents())
    {
      hide Inv, Leq, Round, Taint, InstFlows, p.Valid, Ordered, Closed, Delivered, Before, Descs, Marks, Credited;
      sweeps, last := 0, tm.Contents();
      StartKeeps(p);
      var changed: nat := 1;
      while changed > 0
        invariant Inv(p, tm.Contents()) && Inv(p, last) && sweeps <= |tm.GTS.Keys|
        invariant changed == 0 ==>
                    && Leq(last, tm.Contents()) && last.gts.Keys == tm.GTS.Keys
                    && tm.Contents() == Round(p, last, |p.modules|)
        decreases |p.ids| - |tm.GTS.Keys|, changed > 0
      {
        last := tm.Contents();
        changed, sweeps := RunRound(sweeps);
        CardinalityBelow(last.gts.Keys, tm.GTS.Keys);
        BoundedKeys(p, tm.Contents());
      }
      BoundedKeys(p, tm.Contents());
      forall i | p.Has(i)
        ensures forall id :: Marks(p, i, id) ==> SourceId(tm.Contents(), id)
        ensures forall a, b :: InstFlows(p, i, a, b) && Tainted(p, last, a) ==> Tainted(p, tm.Contents(), b)
      {
        RoundReaches(p, last, i);
      }
      forall m: nat, f: nat, k: nat | p.At(m, f, k)
        ensures Delivered(p, Before(p, last, m, f, k), p.modules[m][f][k], tm.Contents())
        ensures Credited(p, p.modules[m][f][k], tm.Contents())
      {
        RoundDelivers(p, last, m, f, k);
        DeliveredSource(p, Before(p, last, m, f, k), p.modules[m][f][k], tm.Contents());
      }
      forall i, a, b | p.Has(i) && InstFlows(p, i, a, b) && b != Glob("")
        ensures Descs(last, a) <= Descs(tm.Contents(), b)
      {
        RoundCarries(p, last, i, a, b);
      }
      OnlyMarked(p, tm.Contents());
      if Ordered(p) { ClosedAfterRound(p, last); }
    }
  }

  // ----- Where the pass stops short

  /** Value 3 is computed from 2, 2 from 1 and 1 from the source 0, listed users first. */
  const LATE := Program([[[Copy(3), Copy(2), Copy(1), Inst(0, OtherInst, [], Some("d"), [])]]],
                        v => if v == 0 then "y" else "", v => v, map[], {"y"})

  function Copy(v: nat): Inst
    requires v > 0
  {
    Inst(v, OtherInst, [v - 1], None, [])
  }

  function LateState(n: nat): State {
    State(map["y" := ({"d"}, true)], map v | v in Numbers(n) :: {"d"})
  }

  lemma LateCopy(s: State, v: nat)
    requires v > 0
    ensures RunInst(LATE, s, Copy(v)) == if Taint(LATE, s, v - 1) == {} then s
                                         else AddVal(Looked(LATE, s, v - 1), v, Taint(LATE, s, v - 1))
  {
    hide Taint;
    assert Gather(LATE, s, [v - 1], 0) == (s, {});
    assert {} + Taint(LATE, s, v - 1) == Taint(LATE, s, v - 1);
    if Taint(LATE, s, v - 1) == {} { NothingLooked(LATE, s, v - 1); }
  }

  lemma LateStep(n: nat, v: nat)
    requires 0 < n && 0 < v
    ensures RunInst(LATE, LateState(n), Copy(v)) == LateState(if v == n then n + 1 else n)
  {
    hide RunInst;
    var s := LateState(n);
    LateCopy(s, v);
    if v == n {
      assert s.vts[n := {"d"}] == LateState(n + 1).vts && {} + {"d"} == {"d"};
    } else if v < n {
      assert {"d"} + {"d"} == {"d"} && s.vts[v := {"d"}] == s.vts;
    }
  }

  lemma LateSource(s: State)
    requires s == State(map[], map[]) || exists n: nat :: n > 0 && s == LateState(n)
    ensures RunInst(LATE, s, LATE.modules[0][0][3]) == if s == State(map[], map[]) then LateState(1) else s
  {
    var i := LATE.modules[0][0][3];
    var t := AddVal(s, 0, {"d"});
    assert {} + {"d"} == {"d"} && {"d"} + {"d"} == {"d"};
    assert Mark(LATE, s, i) == AddId(t, "y", {"d"}, true);
    if s == State(map[], map[]) {
      assert t.vts == LateState(1).vts;
    } else {
      assert t.vts == s.vts;
      assert s.gts["y" := ({"d"}, true)] == s.gts;
    }
  }

  /** Four sweeps would taint value 3, but the pass stops after three: no identifier is new in the
      second and third. */
  lemma LateSweeps(n: nat)
    requires n <= 3
    ensures var s := if n == 0 then State(map[], map[]) else LateState(n);
            Sweep(LATE, s, LATE.modules[0], 1) == LateState(n + 1)
  {
    hide RunInst;
    var s := if n == 0 then State(map[], map[]) else LateState(n);
    var f := LATE.modules[0][0];
    if n == 0 {
      LateCopy(s, 3); LateCopy(s, 2); LateCopy(s, 1);
      LateSource(s);
    } else {
      LateStep(n, 3);
      var n3 := if n == 3 then n + 1 else n;
      LateStep(n3, 2);
      var n2 := if n3 == 2 then n3 + 1 else n3;
      LateStep(n2, 1);
      LateSource(LateState(n + 1));
    }
    var s1 := RunFunction(LATE, s, f, 1);
    assert s1 == RunInst(LATE, RunFunction(LATE, s, f, 0), f[0]);
    var s2 := RunFunction(LATE, s, f, 2);
    assert s2 == RunInst(LATE, s1, f[1]);
    var s3 := RunFunction(LATE, s, f, 3);
    assert s3 == RunInst(LATE, s2, f[2]);
    assert RunFunction(LATE, s, f, 4) == RunInst(LATE, s3, f[3]);
    assert Sweep(LATE, s, LATE.modules[0], 0) == s;
  }

  lemma NotClosed()
    ensures LATE.Valid() && LATE.Has(Copy(3)) && InstFlows(LATE, Copy(3), Val(2), Val(3)) && !Ordered(LATE)
    ensures var sweep := (s: State) => Sweep(LATE, s, LATE.modules[0], 1);
            var s1 := sweep(State(map[], map[])); var s2 := sweep(s1); var s3 := sweep(s2);
            && s1.gts.Keys == s2.gts.Keys == s3.gts.Keys
            && Tainted(LATE, s3, Val(2)) && !Tainted(LATE, s3, Val(3)) && Tainted(LATE, sweep(s3), Val(3))
  {
    hide Sweep, RunInst;
    assert LATE.At(0, 0, 0) && LATE.modules[0][0][0] == Copy(3);
    assert LATE.At(0, 0, 1) && LATE.modules[0][0][1] == Copy(2) && Reads(Copy(3), 2);
    LateSweeps(0); LateSweeps(1); LateSweeps(2); LateSweeps(3);
  }

  lemma StartKeeps(p: Program)
    ensures Inv(p, State(map[], map[]))
  {}

  lemma OnlyMarked(p: Program, s: State)
    requires Inv(p, s)
    ensures forall id :: SourceId(s, id) ==> MarkedId(p, id)
  {
    hide MarkedId, AllDerived;
  }

  lemma BoundedKeys(p: Program, s: State)
    requires Inv(p, s)
    ensures |s.gts.Keys| <= |p.ids|
  {
    hide MarkedId, AllDerived;
    CardinalityBelow(s.gts.Keys, p.ids);
  }

  lemma NothingLooked(p: Program, s: State, v: nat)
    requires Taint(p, s, v) == {}
    ensures Looked(p, s, v) == s
  {}

  predicate GrewFrom(s: State, t: State, changed: bool) {
    s.gts.Keys <= t.gts.Keys && changed == (s.gts.Keys != t.gts.Keys)
  }

  lemma AnnotatedDerived(p: Program, s: State, i: Inst)
    requires Inv(p, s) && p.Has(i) && i.source.Some? && i.v in s.vts
    ensures s.vts[i.v] != {}
    ensures forall id {:trigger Glob(id)} :: id == p.valueId(i.v) || id in i.memberIds ==>
              id == "" || (MarkedId(p, id) && AllDerived(p, Glob(id), s.vts[i.v]))
  {
    hide MarkedId, AllDerived;
    forall id | id != "" && (id == p.valueId(i.v) || id in i.memberIds)
      ensures MarkedId(p, id) && AllDerived(p, Glob(id), s.vts[i.v])
    {
      MarkedBy(p, i, id, s.vts[i.v]);
    }
  }

  lemma IdTaintNonEmpty(p: Program, s: State, id: Id)
    requires Inv(p, s)
    ensures id != "" && id in s.gts ==> IdTaint(s, id) != {}
  {}
}
