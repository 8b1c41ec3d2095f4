/** RangePass: one range per identifier for the whole program, grown by sweeps over the functions
    until nothing changes, with slow identifiers widened to the full range. */
module RangePasses {
  import opened BitVec
  import opened CRanges
  import opened FiniteSets

  type Id = string
  type RangeMap = map<Id, CRange>

  /** The ranges of values within a function: block and value to range. */
  type LocalRanges = map<(nat, nat), CRange>

  /** A sweep touches the global ranges only by adding a range to an identifier. */
  datatype Update = NoUpdate | UnionRange(id: Id, r: CRange)

  /** One step of a sweep over a function: what it does is determined by the global and local ranges. */
  type Step = (RangeMap, LocalRanges) -> (LocalRanges, Update)

  /** Every value of a, zero-extended or truncated to the width of r, is in r. */
  ghost predicate Covers(r: CRange, a: CRange) {
    forall x: nat :: a.Contains(x) ==> r.Contains(Wrap(r.width, x))
  }

  /** The two operations of llvm::ConstantRange that safeUnion uses. */
  datatype RangeLib = RangeLib(unionWith: (CRange, CRange) -> CRange, zextOrTrunc: (CRange, nat) -> CRange) {
    /** A union has the width of its operands and contains them; resizing gives the width asked for,
        and contains every value zero-extended or truncated to it. */
    ghost predicate Valid() {
      && (forall a: CRange, b: CRange :: a.Valid() && b.Valid() && a.width == b.width ==>
            ContainsBoth(unionWith(a, b), a, b))
      && (forall a: CRange, w: nat :: a.Valid() && w >= 1 ==> Resized(zextOrTrunc(a, w), w, a))
    }

    ghost predicate ContainsBoth(u: CRange, a: CRange, b: CRange) {
      u.Valid() && u.width == a.width && Subset(a, u) && Subset(b, u)
    }

    ghost predicate Resized(r: CRange, w: nat, a: CRange) {
      r.Valid() && r.width == w && Covers(r, a)
    }

    /** CRange::match, then CRange::safeUnion. */
    function SafeUnion(a: CRange, r: CRange): CRange {
      unionWith(a, if r.width != a.width then zextOrTrunc(r, a.width) else r)
    }
  }

  datatype Program = Program(lib: RangeLib, modules: seq<seq<seq<Step>>>, ids: set<Id>, maxWidth: nat) {
    ghost predicate Valid() {
      lib.Valid() && forall m :: 0 <= m < |modules| ==> ValidModule(modules[m])
    }

    ghost predicate ValidModule(fs: seq<seq<Step>>) {
      forall f :: 0 <= f < |fs| ==> ValidBody(fs[f])
    }

    ghost predicate ValidBody(steps: seq<Step>) {
      forall k :: 0 <= k < |steps| ==> ValidStep(steps[k])
    }

    ghost predicate ValidStep(step: Step) {
      forall m: RangeMap, l: LocalRanges :: ValidUpdate(step(m, l).1)
    }

    predicate At(i: nat, f: nat, k: nat) {
      i < |modules| && f < |modules[i]| && k < |modules[i][f]|
    }

    predicate ValidUpdate(u: Update) {
      u.UnionRange? ==> u.id in ids && u.r.Valid() && u.r.width <= maxWidth
    }

    predicate ValidEntry(id: Id, r: CRange) {
      id in ids && r.Valid() && !r.IsEmpty() && r.width <= maxWidth
    }

    predicate ValidMap(m: RangeMap) {
      forall id :: id in m ==> ValidEntry(id, m[id])
    }
  }

  // ----- What a sweep computes

  /** RangePass::unionRange. */
  function Apply(lib: RangeLib, m: RangeMap, u: Update): RangeMap {
    match u
    case NoUpdate => m
    case UnionRange(id, r) =>
      if r.IsEmpty() then m else if id in m then m[id := lib.SafeUnion(m[id], r)] else m[id := r]
  }

  /** updateRangeFor of a function, from the given local ranges on. */
  function RunSteps(lib: RangeLib, steps: seq<Step>, m: RangeMap, l: LocalRanges): RangeMap {
    if steps == [] then m else
      var (l', u) := steps[0](m, l);
      RunSteps(lib, steps[1..], Apply(lib, m, u), l')
  }

  /** One sweep over the functions of a module. */
  function RunModule(lib: RangeLib, fs: seq<seq<Step>>, m: RangeMap): RangeMap {
    if fs == [] then m else RunModule(lib, fs[1..], RunSteps(lib, fs[0], m, map[]))
  }

  // ----- The order in which ranges grow

  ghost predicate Leq(a: RangeMap, b: RangeMap) {
    forall id :: id in a ==> id in b && EntryLeq(a[id], b[id])
  }

  ghost predicate EntryLeq(x: CRange, y: CRange) {
    x.width == y.width && Subset(x, y)
  }

  /** The identifiers whose range differs, or is new. */
  function Differences(a: RangeMap, b: RangeMap): set<Id> {
    set id | id in b && (id !in a || a[id] != b[id])
  }

  lemma AntiSymmetric(x: CRange, y: CRange)
    requires x.Valid() && y.Valid() && EntryLeq(x, y) && EntryLeq(y, x)
    ensures x == y
  {
    if x != y {
      DifferentSets(x, y);
    }
  }

  lemma LeqReflexive(a: RangeMap)
    ensures Leq(a, a)
  {
  }

  lemma LeqTransitive(a: RangeMap, b: RangeMap, c: RangeMap)
    requires Leq(a, b) && Leq(b, c)
    ensures Leq(a, c)
  {
    forall id | id in a
      ensures id in c && EntryLeq(a[id], c[id])
    {
      assert EntryLeq(a[id], b[id]) && EntryLeq(b[id], c[id]);
    }
  }

  /** Ranges never shrink back, so the differences of two growing steps add up. */
  lemma DifferencesAdd(p: Program, a: RangeMap, b: RangeMap, c: RangeMap)
    requires p.ValidMap(a) && p.ValidMap(b) && p.ValidMap(c) && Leq(a, b) && Leq(b, c)
    ensures Differences(a, c) == Differences(a, b) + Differences(b, c)
  {
    forall id | id in c
      ensures id in Differences(a, c) <==> id in Differences(a, b) + Differences(b, c)
    {
      if id in a {
        assert EntryLeq(a[id], b[id]) && EntryLeq(b[id], c[id]);
        if a[id] == c[id] {
          AntiSymmetric(a[id], b[id]);
        }
      }
    }
  }

  lemma GrowthKept(p: Program, a: RangeMap, b: RangeMap, c: RangeMap)
    requires p.ValidMap(a) && p.ValidMap(b) && p.ValidMap(c) && Leq(a, b) && Leq(b, c)
    ensures a != b ==> a != c
    ensures Differences(a, b) == {} <==> a == b
  {
    DifferencesAdd(p, a, b, c);
    if Differences(a, b) == {} {
      NoDifferences(a, b);
    }
    assert Differences(a, a) == {};
  }

  lemma GrowthBefore(p: Program, a: RangeMap, b: RangeMap, c: RangeMap)
    requires p.ValidMap(a) && p.ValidMap(b) && p.ValidMap(c) && Leq(a, b) && Leq(b, c)
    ensures b != c ==> a != c
  {
    DifferencesAdd(p, a, b, c);
    if Differences(b, c) == {} {
      NoDifferences(b, c);
    }
    assert Differences(a, a) == {};
  }

  lemma NoDifferences(a: RangeMap, b: RangeMap)
    requires Leq(a, b) && Differences(a, b) == {}
    ensures a == b
  {
    forall id | id in b
      ensures id in a && a[id] == b[id]
    {
      assert id !in Differences(a, b);
    }
  }

  /** unionRange only grows the map, and keeps full ranges. */
  lemma ApplyGrows(p: Program, m: RangeMap, u: Update)
    requires p.lib.Valid() && p.ValidMap(m) && p.ValidUpdate(u)
    ensures p.ValidMap(Apply(p.lib, m, u)) && Leq(m, Apply(p.lib, m, u))
  {
    if u.UnionRange? && !u.r.IsEmpty() && u.id in m {
      SafeUnionGrows(p.lib, m[u.id], u.r);
    }
  }

  lemma SafeUnionGrows(lib: RangeLib, a: CRange, r: CRange)
    requires lib.Valid() && a.Valid() && r.Valid()
    ensures lib.SafeUnion(a, r).Valid() && EntryLeq(a, lib.SafeUnion(a, r))
    ensures !a.IsEmpty() ==> !lib.SafeUnion(a, r).IsEmpty()
  {
    var v := if r.width != a.width then lib.zextOrTrunc(r, a.width) else r;
    assert r.width != a.width ==> lib.Resized(lib.zextOrTrunc(r, a.width), a.width, r);
    assert lib.ContainsBoth(lib.unionWith(a, v), a, v);
    if !a.IsEmpty() {
      NonEmpty(a);
      assert lib.unionWith(a, v).Contains(a.lo);
    }
  }

  /** What is added gets in, brought to the width of the entry. */
  lemma SafeUnionCovers(lib: RangeLib, a: CRange, r: CRange)
    requires lib.Valid() && a.Valid() && r.Valid()
    ensures lib.SafeUnion(a, r).Valid() && lib.SafeUnion(a, r).width == a.width && Covers(lib.SafeUnion(a, r), r)
    ensures a.width == r.width ==> Subset(r, lib.SafeUnion(a, r))
  {
    hide Pow2;
    var v := if r.width != a.width then lib.zextOrTrunc(r, a.width) else r;
    assert r.width != a.width ==> lib.Resized(lib.zextOrTrunc(r, a.width), a.width, r);
    assert lib.ContainsBoth(lib.unionWith(a, v), a, v);
    CoversItself(r);
    assert Covers(v, r);
  }

  lemma CoversItself(r: CRange)
    ensures Covers(r, r)
  {
    forall x: nat | r.Contains(x) ensures Wrap(r.width, x) == x { WrapId(r.width, x); }
  }

  /** The range that an update adds is in the map. */
  ghost predicate Absorbed(m: RangeMap, u: Update) {
    u.UnionRange? && !u.r.IsEmpty() ==> u.id in m && Covers(m[u.id], u.r)
  }

  lemma ApplyAbsorbs(p: Program, m: RangeMap, u: Update)
    requires p.lib.Valid() && p.ValidMap(m) && p.ValidUpdate(u)
    ensures Absorbed(Apply(p.lib, m, u), u)
    ensures forall id :: id in Apply(p.lib, m, u) && !(u.UnionRange? && id == u.id) ==>
              id in m && Apply(p.lib, m, u)[id] == m[id]
  {
    if u.UnionRange? && !u.r.IsEmpty() {
      if u.id in m { SafeUnionCovers(p.lib, m[u.id], u.r); } else { CoversItself(u.r); }
    }
  }

  lemma NonEmpty(a: CRange)
    requires a.Valid() && !a.IsEmpty()
    ensures a.Contains(a.lo)
  {
  }

  lemma FullStays(p: Program, a: RangeMap, b: RangeMap, id: Id)
    requires p.ValidMap(a) && p.ValidMap(b) && Leq(a, b) && id in a && a[id].IsFull()
    ensures id in b && b[id] == a[id]
  {
    assert EntryLeq(a[id], b[id]);
    if a[id] != b[id] {
      DifferentSets(a[id], b[id]);
    }
  }

  // ----- What a sweep that changes nothing says

  lemma LeqBoth(p: Program, a: RangeMap, b: RangeMap)
    requires p.ValidMap(a) && p.ValidMap(b) && Leq(a, b) && Leq(b, a)
    ensures a == b
  {
    forall id | id in a ensures a[id] == b[id] { AntiSymmetric(a[id], b[id]); }
  }

  lemma {:induction false} StepsGrow(p: Program, steps: seq<Step>, m: RangeMap, l: LocalRanges)
    requires p.lib.Valid() && p.ValidMap(m) && p.ValidBody(steps)
    ensures p.ValidMap(RunSteps(p.lib, steps, m, l)) && Leq(m, RunSteps(p.lib, steps, m, l))
    decreases |steps|
  {
    hide Leq, Apply, p.lib.Valid, p.ValidMap, p.ValidUpdate;
    if steps == [] {
      LeqReflexive(m);
    } else {
      var (l', u) := steps[0](m, l);
      assert p.ValidStep(steps[0]) && p.ValidUpdate(steps[0](m, l).1);
      ApplyGrows(p, m, u);
      StepsGrow(p, steps[1..], Apply(p.lib, m, u), l');
      LeqTransitive(m, Apply(p.lib, m, u), RunSteps(p.lib, steps, m, l));
    }
  }

  lemma {:induction false} ModuleGrows(p: Program, fs: seq<seq<Step>>, m: RangeMap)
    requires p.lib.Valid() && p.ValidMap(m) && p.ValidModule(fs)
    ensures p.ValidMap(RunModule(p.lib, fs, m)) && Leq(m, RunModule(p.lib, fs, m))
    decreases |fs|
  {
    hide Leq, RunSteps, p.lib.Valid, p.ValidMap, p.ValidBody;
    if fs == [] {
      LeqReflexive(m);
    } else {
      var m' := RunSteps(p.lib, fs[0], m, map[]);
      StepsGrow(p, fs[0], m, map[]);
      ModuleGrows(p, fs[1..], m');
      LeqTransitive(m, m', RunModule(p.lib, fs, m));
    }
  }

  /** The local ranges before step k of a function, if the global ones stay m. */
  function LocalsAt(steps: seq<Step>, m: RangeMap, l: LocalRanges, k: nat): LocalRanges
    requires k <= |steps|
  {
    if k == 0 then l else LocalsAt(steps[1..], m, steps[0](m, l).0, k - 1)
  }

  /** If a sweep over a function changes nothing, every range it adds is already there. */
  lemma {:induction false} StepsAbsorbed(p: Program, steps: seq<Step>, m: RangeMap, l: LocalRanges, k: nat)
    requires p.lib.Valid() && p.ValidMap(m) && p.ValidBody(steps)
    requires RunSteps(p.lib, steps, m, l) == m && k < |steps|
    ensures Absorbed(m, steps[k](m, LocalsAt(steps, m, l, k)).1)
    decreases |steps|
  {
    hide Leq, Apply, Absorbed, p.lib.Valid, p.ValidMap, p.ValidUpdate;
    var (l', u) := steps[0](m, l);
    assert p.ValidStep(steps[0]) && p.ValidUpdate(steps[0](m, l).1);
    ApplyGrows(p, m, u);
    StepsGrow(p, steps[1..], Apply(p.lib, m, u), l');
    LeqBoth(p, m, Apply(p.lib, m, u));
    if k == 0 {
      ApplyAbsorbs(p, m, u);
    } else {
      StepsAbsorbed(p, steps[1..], m, l', k - 1);
    }
  }

  lemma {:induction false} ModuleAbsorbed(p: Program, fs: seq<seq<Step>>, m: RangeMap, f: nat, k: nat)
    requires p.lib.Valid() && p.ValidMap(m) && p.ValidModule(fs) && RunModule(p.lib, fs, m) == m
    requires f < |fs| && k < |fs[f]|
    ensures Absorbed(m, fs[f][k](m, LocalsAt(fs[f], m, map[], k)).1)
    decreases |fs|
  {
    hide Leq, RunSteps, Absorbed, LocalsAt, p.lib.Valid, p.ValidMap, p.ValidBody;
    var m' := RunSteps(p.lib, fs[0], m, map[]);
    StepsGrow(p, fs[0], m, map[]);
    ModuleGrows(p, fs[1..], m');
    LeqBoth(p, m, m');
    if f == 0 {
      StepsAbsorbed(p, fs[0], m, map[], k);
    } else {
      ModuleAbsorbed(p, fs[1..], m, f - 1, k);
    }
  }

  // ----- Widening

  function Widened(m: RangeMap, ids: set<Id>): RangeMap
    requires forall id :: id in m ==> m[id].width >= 1
  {
    map id | id in m :: if id in ids then FullSet(m[id].width) else m[id]
  }

  lemma WidenedGrows(p: Program, m: RangeMap, ids: set<Id>)
    requires p.ValidMap(m) && ids <= m.Keys
    ensures p.ValidMap(Widened(m, ids)) && Leq(m, Widened(m, ids))
    ensures forall id :: id in ids ==> Widened(m, ids)[id].IsFull()
  {
    hide Pow2;
    forall id | id in m ensures p.ValidEntry(id, Widened(m, ids)[id]) && EntryLeq(m[id], Widened(m, ids)[id]) {
      assert p.ValidEntry(id, m[id]);
    }
  }

  /** n sweeps over a module. */
  function Sweeps(lib: RangeLib, fs: seq<seq<Step>>, m: RangeMap, n: nat): RangeMap {
    if n == 0 then m else RunModule(lib, fs, Sweeps(lib, fs, m, n - 1))
  }

  // ----- Termination over all modules: finitely many values can be added

  /** The values an identifier may have, over all identifiers. */
  function Points(p: Program, m: RangeMap): set<(Id, nat)> {
    set id, x | id in m && x in Numbers(Pow2(p.maxWidth)) && m[id].Contains(x) :: (id, x)
  }

  function AllPoints(p: Program): set<(Id, nat)> {
    set id, x | id in p.ids && x in Numbers(Pow2(p.maxWidth)) :: (id, x)
  }

  function Remaining(p: Program, m: RangeMap): nat
    requires p.ValidMap(m)
  {
    PointsBounded(p, m);
    |AllPoints(p)| - |Points(p, m)|
  }

  lemma PointsBounded(p: Program, m: RangeMap)
    requires p.ValidMap(m)
    ensures |Points(p, m)| <= |AllPoints(p)|
  {
    assert Points(p, m) <= AllPoints(p);
    CardinalityBelow(Points(p, m), AllPoints(p));
  }

  lemma RemainingShrinks(p: Program, a: RangeMap, b: RangeMap)
    requires p.ValidMap(a) && p.ValidMap(b) && Leq(a, b)
    ensures Remaining(p, b) <= Remaining(p, a)
    ensures a != b ==> Remaining(p, b) < Remaining(p, a)
  {
    forall id, x | (id, x) in Points(p, a)
      ensures (id, x) in Points(p, b)
    {
      assert EntryLeq(a[id], b[id]);
    }
    if a != b {
      NewPoint(p, a, b);
    }
    CardinalityBelow(Points(p, a), Points(p, b));
  }

  lemma NewPoint(p: Program, a: RangeMap, b: RangeMap)
    requires p.ValidMap(a) && p.ValidMap(b) && Leq(a, b) && a != b
    ensures Points(p, a) != Points(p, b)
  {
    if Differences(a, b) == {} {
      NoDifferences(a, b);
    }
    var id :| id in Differences(a, b);
    Pow2Mono(b[id].width, p.maxWidth);
    var x: nat;
    if id in a {
      assert EntryLeq(a[id], b[id]);
      DifferentSets(a[id], b[id]);
      x :| a[id].Contains(x) != b[id].Contains(x);
    } else {
      NonEmpty(b[id]);
      x := b[id].lo;
    }
    assert (id, x) in Points(p, b) && (id, x) !in Points(p, a);
  }

  // ----- The pass

  class RangePass {
    const p: Program
    const MaxIterations: nat := 5
    var IntRanges: RangeMap
    var Changes: set<Id>

    constructor (p: Program, initializers: RangeMap)
      ensures this.p == p && IntRanges == initializers && Changes == {}
    {
      this.p, IntRanges, Changes := p, initializers, {};
    }

    ghost predicate Ready()
      reads this
    {
      p.lib.Valid() && p.ValidMap(IntRanges)
    }

    /** unionRange: the change set records exactly the identifiers whose range grew. */
    method Union(u: Update) returns (changed: bool)
      requires Ready() && p.ValidUpdate(u)
      modifies this
      ensures Ready() && IntRanges == Apply(p.lib, old(IntRanges), u) && Leq(old(IntRanges), IntRanges)
      ensures Changes == old(Changes) + Differences(old(IntRanges), IntRanges)
      ensures changed <==> Differences(old(IntRanges), IntRanges) != {}
      ensures Absorbed(IntRanges, u)
      ensures u.UnionRange? && !u.r.IsEmpty() && u.id in old(IntRanges) && u.r.width == old(IntRanges)[u.id].width ==>
                IntRanges[u.id] == p.lib.unionWith(old(IntRanges)[u.id], u.r)
      ensures forall id :: id in IntRanges && !(u.UnionRange? && id == u.id) ==>
                id in old(IntRanges) && IntRanges[id] == old(IntRanges)[id]
    {
      ghost var before := IntRanges;
      ApplyGrows(p, before, u);
      ApplyAbsorbs(p, before, u);
      changed := false;
      if u.UnionRange? && !u.r.IsEmpty() {
        changed := true;
        if u.id in IntRanges {
          var r := p.lib.SafeUnion(IntRanges[u.id], u.r);
          changed := r != IntRanges[u.id];
          IntRanges := IntRanges[u.id := r];
        } else {
          IntRanges := IntRanges[u.id := u.r];
        }
        if changed {
          Changes := Changes + {u.id};
          assert Differences(before, IntRanges) == {u.id};
        }
      }
      assert !changed ==> Differences(before, IntRanges) == {};
    }

    /** updateRangeFor of one function; its local ranges start out empty. */
    method UpdateRangeFor(steps: seq<Step>) returns (changed: bool)
      requires Ready() && p.ValidBody(steps)
      modifies this
      ensures Ready() && IntRanges == RunSteps(p.lib, steps, old(IntRanges), map[]) && Leq(old(IntRanges), IntRanges)
      ensures Changes == old(Changes) + Differences(old(IntRanges), IntRanges)
      ensures changed <==> Differences(old(IntRanges), IntRanges) != {}
    {
      hide Leq, p.lib.Valid, p.ValidMap, p.ValidUpdate;
      changed := false;
      var locals: LocalRanges := map[];
      ghost var before := IntRanges;
      LeqReflexive(before);
      assert Differences(before, before) == {};
      var k := 0;
      while k < |steps|
        invariant 0 <= k <= |steps|
        invariant Ready() && Leq(before, IntRanges)
        invariant RunSteps(p.lib, steps[k..], IntRanges, locals) == RunSteps(p.lib, steps, before, map[])
        invariant Changes == old(Changes) + Differences(before, IntRanges)
        invariant changed <==> Differences(before, IntRanges) != {}
      {
        ghost var mid := IntRanges;
        assert steps[k..][0] == steps[k] && steps[k..][1..] == steps[k + 1..];
        assert p.ValidStep(steps[k]);
        var (locals', u) := steps[k](IntRanges, locals);
        assert p.ValidUpdate(steps[k](IntRanges, locals).1);
        locals := locals';
        var c := Union(u);
        LeqTransitive(before, mid, IntRanges);
        DifferencesAdd(p, before, mid, IntRanges);
        changed := changed || c;
        k := k + 1;
      }
    }

    /** One sweep over a module. */
    method Sweep(fs: seq<seq<Step>>) returns (changed: bool)
      requires Ready() && p.ValidModule(fs)
      modifies this
      ensures Ready() && IntRanges == RunModule(p.lib, fs, old(IntRanges)) && Leq(old(IntRanges), IntRanges)
      ensures Changes == Differences(old(IntRanges), IntRanges)
      ensures changed <==> Changes != {}
    {
      changed := false;
      Changes := {};
      ghost var before := IntRanges;
      assert Differences(before, before) == {};
      var k := 0;
      while k < |fs|
        invariant 0 <= k <= |fs|
        invariant Ready() && Leq(before, IntRanges)
        invariant RunModule(p.lib, fs[k..], IntRanges) == RunModule(p.lib, fs, before)
        invariant Changes == Differences(before, IntRanges)
        invariant changed <==> Changes != {}
      {
        ghost var mid := IntRanges;
        assert fs[k..][0] == fs[k] && fs[k..][1..] == fs[k + 1..];
        var c := UpdateRangeFor(fs[k]);
        LeqTransitive(before, mid, IntRanges);
        DifferencesAdd(p, before, mid, IntRanges);
        changed := changed || c;
        k := k + 1;
      }
    }

    /** Expand the identifiers that still change to the full range. */
    method Widen()
      requires Ready() && Changes <= IntRanges.Keys
      modifies `IntRanges
      ensures Ready() && Leq(old(IntRanges), IntRanges) && IntRanges.Keys == old(IntRanges).Keys
      ensures forall id :: id in Changes ==> IntRanges[id].IsFull()
      ensures forall id :: id in IntRanges && id !in Changes ==> IntRanges[id] == old(IntRanges)[id]
      ensures IntRanges == Widened(old(IntRanges), Changes)
    {
      hide Pow2, Leq;
      ghost var before := IntRanges;
      WidenedGrows(p, before, Changes);
      assert Widened(before, {}) == before;
      var rest := Changes;
      while rest != {}
        invariant rest <= Changes && IntRanges == Widened(before, Changes - rest)
        decreases rest
      {
        var id :| id in rest;
        IntRanges := IntRanges[id := FullSet(IntRanges[id].width)];
        rest := rest - {id};
      }
      assert Changes - rest == Changes;
    }

    /** After itr sweeps, some identifiers have been widened: more than itr - MaxIterations, all
        full, and none of them changed in the last sweep. */
    ghost predicate Progress(itr: nat, changed: bool, widened: set<Id>)
      reads this
    {
      && widened <= IntRanges.Keys && (forall id :: id in widened ==> IntRanges[id].IsFull())
      && MaxIterations + |widened| >= itr
      && (itr == 0 ==> widened == {})
      && (itr > 0 ==> widened !! Changes && Changes <= IntRanges.Keys && (changed <==> Changes != {}))
    }

    /** One round of doModulePass: widen if it is late, then sweep. */
    method Round(fs: seq<seq<Step>>, itr: nat, ghost widened: set<Id>) returns (changed: bool, ghost widened': set<Id>)
      requires Ready() && p.ValidModule(fs) && Progress(itr, true, widened)
      modifies this
      ensures Ready() && Leq(old(IntRanges), IntRanges) && Progress(itr + 1, changed, widened')
      ensures !changed ==> RunModule(p.lib, fs, IntRanges) == IntRanges
      ensures changed ==> IntRanges != old(IntRanges)
      ensures !changed && itr == 0 ==> IntRanges == old(IntRanges)
      ensures IntRanges == RunModule(p.lib, fs, if itr + 1 > MaxIterations then Widened(old(IntRanges), old(Changes))
                                                else old(IntRanges))
    {
      hide Leq, Differences, RunModule, p.lib.Valid, p.ValidMap, p.ValidModule;
      ghost var before := IntRanges;
      LeqReflexive(before);
      widened' := widened;
      if itr + 1 > MaxIterations {
        Widen();
        CardinalityBelow(widened, widened + Changes);
        widened' := widened + Changes;
      }
      ghost var mid := IntRanges;
      changed := Sweep(fs);
      LeqTransitive(before, mid, IntRanges);
      LeqReflexive(IntRanges);
      FullUntouched(widened', mid);
      GrowthKept(p, mid, IntRanges, IntRanges);
      GrowthBefore(p, before, mid, IntRanges);
    }

    /** doModulePass: sweep a module until nothing changes.  It takes at most MaxIterations sweeps
        plus one for every identifier, and then one more sweep changes nothing. */
    method DoModulePass(fs: seq<seq<Step>>) returns (ret: bool, itr: nat)
      requires Ready() && p.ValidModule(fs)
      modifies this
      ensures Ready() && Leq(old(IntRanges), IntRanges)
      ensures itr <= MaxIterations + |p.ids|
      ensures RunModule(p.lib, fs, IntRanges) == IntRanges
      ensures ret <==> IntRanges != old(IntRanges)
      ensures itr <= MaxIterations ==> IntRanges == Sweeps(p.lib, fs, old(IntRanges), itr)
    {
      hide Leq, Differences, RunModule, p.lib.Valid, p.ValidMap, p.ValidModule;
      itr := 0;
      var changed := true;
      ret := false;
      ghost var before := IntRanges;
      ghost var widened: set<Id> := {};
      LeqReflexive(before);
      while changed
        invariant Ready() && Leq(before, IntRanges) && (ret <==> IntRanges != before)
        invariant !changed ==> RunModule(p.lib, fs, IntRanges) == IntRanges
        invariant Progress(itr, changed, widened) && itr <= MaxIterations + |p.ids|
        invariant changed && itr > 0 ==> ret
        invariant itr <= MaxIterations ==> IntRanges == Sweeps(p.lib, fs, before, itr)
        decreases MaxIterations + |p.ids| - itr
      {
        ghost var mid := IntRanges;
        changed, widened := Round(fs, itr, widened);
        itr := itr + 1;
        WidenedFew(widened);
        LeqTransitive(before, mid, IntRanges);
        GrowthKept(p, before, mid, IntRanges);
        GrowthBefore(p, before, mid, IntRanges);
        ret := ret || changed;
      }
    }

    lemma FullUntouched(widened: set<Id>, before: RangeMap)
      requires Ready() && p.ValidMap(before) && Leq(before, IntRanges)
      requires forall id :: id in widened ==> id in before && before[id].IsFull()
      ensures forall id :: id in widened ==> id in IntRanges && IntRanges[id].IsFull()
      ensures widened !! Differences(before, IntRanges) && Differences(before, IntRanges) <= IntRanges.Keys
      ensures widened <= IntRanges.Keys
    {
      forall id | id in widened
        ensures id in IntRanges && IntRanges[id] == before[id]
      {
        FullStays(p, before, IntRanges, id);
      }
    }

    lemma WidenedFew(widened: set<Id>)
      requires Ready() && widened <= IntRanges.Keys
      ensures |widened| <= |p.ids|
    {
      forall id | id in widened
        ensures id in p.ids
      {
        assert p.ValidEntry(id, IntRanges[id]);
      }
      CardinalityBelow(widened, p.ids);
    }

    ghost predicate Closed(m: RangeMap, k: nat) {
      forall i :: 0 <= i < k && i < |p.modules| ==> RunModule(p.lib, p.modules[i], m) == m
    }

    /** IterativeModulePass::run: every range only grows, and in the end one more sweep of any module
        changes no range: everything it adds is already in the range it is added to. */
    method Run()
      requires p.Valid() && p.ValidMap(IntRanges)
      modifies this
      ensures p.ValidMap(IntRanges) && Leq(old(IntRanges), IntRanges)
      ensures forall i :: 0 <= i < |p.modules| ==> RunModule(p.lib, p.modules[i], IntRanges) == IntRanges
      ensures forall i: nat, f: nat, k: nat :: p.At(i, f, k) ==>
                var steps := p.modules[i][f];
                Absorbed(IntRanges, steps[k](IntRanges, LocalsAt(steps, IntRanges, map[], k)).1)
    {
      hide Absorbed, LocalsAt;
      ghost var before := IntRanges;
      var changed := 1;
      while changed != 0
        invariant Ready() && Leq(before, IntRanges)
        invariant changed == 0 ==> Closed(IntRanges, |p.modules|)
        decreases Remaining(p, IntRanges), changed != 0
      {
        ghost var mid := IntRanges;
        changed := RunOnce();
        LeqTransitive(before, mid, IntRanges);
        RemainingShrinks(p, mid, IntRanges);
      }
      forall i: nat, f: nat, k: nat | p.At(i, f, k)
        ensures var steps := p.modules[i][f];
                Absorbed(IntRanges, steps[k](IntRanges, LocalsAt(steps, IntRanges, map[], k)).1)
      {
        ModuleAbsorbed(p, p.modules[i], IntRanges, f, k);
      }
    }

    /** One pass over all modules; the result counts the modules that changed something. */
    method RunOnce() returns (changed: nat)
      requires p.Valid() && Ready()
      modifies this
      ensures Ready() && Leq(old(IntRanges), IntRanges)
      ensures changed == 0 <==> IntRanges == old(IntRanges)
      ensures changed == 0 ==> Closed(IntRanges, |p.modules|)
    {
      changed := 0;
      ghost var before := IntRanges;
      var k := 0;
      while k < |p.modules|
        invariant 0 <= k <= |p.modules|
        invariant Ready() && Leq(before, IntRanges)
        invariant changed == 0 <==> IntRanges == before
        invariant changed == 0 ==> Closed(IntRanges, k)
      {
        ghost var mid := IntRanges;
        var ret, _ := DoModulePass(p.modules[k]);
        LeqTransitive(before, mid, IntRanges);
        GrowthKept(p, before, mid, IntRanges);
        if ret {
          changed := changed + 1;
        }
        k := k + 1;
      }
    }
  }
}
