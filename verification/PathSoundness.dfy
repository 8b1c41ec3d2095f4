/** What the path predicates are worth.  With a dominator tree, the guard of every block that a run
    reaches is true of the run's current values, however many loop iterations came before; without
    one, the guard says exactly that some path of forward edges leads to the block. */
module PathSoundness {
  import opened Terms
  import opened SSA
  import opened ValueEncoding
  import opened PathEncoding

  // ----- Skipping back edges: the guard is the set of open forward paths

  ghost predicate OpenPath(f: Func, path: seq<nat>, b: nat, e: Env)
  {
    && f.Path(path, b)
    && forall i :: 0 < i < |path| ==> OpenForward(f, path[i - 1], path[i], e)
  }

  ghost predicate OpenForward(f: Func, p: nat, b: nat, e: Env)
  {
    (p, b) !in f.back && EdgeOpen(f, p, b, e)
  }

  /** Without a dominator tree, the guard of b is true under an assignment exactly when some path of
      forward edges from the entry to b is open under it, whatever the shapes of its terminators. */
  lemma {:induction false} GuardIffOpenPath(f: Func, b: nat, e: Env)
    requires Sized(f, e) && b < |f.terms|
    ensures Holds(Guard(f, NoTree, b), e) <==> exists path :: OpenPath(f, path, b, e)
    decreases b
  {
    if b == 0 {
      assert OpenPath(f, [0], 0, e);
    } else {
      GuardUpToMeaning(f, NoTree, b, |f.preds[b]|, e);
      EntersFromAny(f, NoTree, b, |f.preds[b]|, e);
      if j :| 0 <= j < |f.preds[b]| && EntersFrom(f, NoTree, f.preds[b][j], b, e) {
        var p := f.preds[b][j];
        assert f.Edge(p, b);
        GuardIffOpenPath(f, p, e);
        var before :| OpenPath(f, before, p, e);
        ExtendPath(f, before, p, b, e);
      }
      if path :| OpenPath(f, path, b, e) {
        LastEdge(f, path, b, e);
        var p := path[|path| - 2];
        GuardIffOpenPath(f, p, e);
        var j :| 0 <= j < |f.preds[b]| && f.preds[b][j] == p;
        assert EntersFrom(f, NoTree, f.preds[b][j], b, e);
      }
    }
  }

  lemma ExtendPath(f: Func, before: seq<nat>, p: nat, b: nat, e: Env)
    requires OpenPath(f, before, p, e) && OpenForward(f, p, b, e)
    ensures OpenPath(f, before + [b], b, e)
  {
    var path := before + [b];
    forall i | 0 < i < |path|
      ensures f.Edge(path[i - 1], path[i]) && OpenForward(f, path[i - 1], path[i], e)
    {
      if i < |before| {
        assert OpenForward(f, before[i - 1], before[i], e);
      }
    }
  }

  lemma LastEdge(f: Func, path: seq<nat>, b: nat, e: Env)
    requires OpenPath(f, path, b, e) && b != 0
    ensures |path| >= 2 && var p := path[|path| - 2];
            OpenPath(f, path[..|path| - 1], p, e) && OpenForward(f, p, b, e) && p < b && p in f.preds[b]
  {
    var n := |path|;
    var p, before := path[n - 2], path[..n - 1];
    assert OpenForward(f, path[n - 2], path[n - 1], e);
    forall i | 0 < i < |before|
      ensures f.Edge(before[i - 1], before[i]) && OpenForward(f, before[i - 1], before[i], e)
    {
      assert OpenForward(f, path[i - 1], path[i], e);
    }
  }

  // ----- With a dominator tree: the guard follows open edges and jumps to dominators

  /** What the guard of b rests on: if a back edge enters b, the guard of the nearest block that
      dominates all predecessors, and otherwise the guard of a predecessor with an open edge. */
  ghost predicate Leads(f: Func, x: nat, b: nat, e: Env) {
    if exists p: nat :: f.Edge(p, b) && (p, b) in f.back then NearestOfPreds(f, x, b) else EdgeOpen(f, x, b, e)
  }

  ghost predicate OpenChain(f: Func, path: seq<nat>, b: nat, e: Env) {
    && |path| > 0 && path[0] == 0 && path[|path| - 1] == b
    && forall i :: 0 < i < |path| ==> 0 < path[i] < |f.terms| && Leads(f, path[i - 1], path[i], e)
  }

  /** With a dominator tree, the guard of b is true under an assignment exactly when such a chain
      leads from the entry to b. */
  lemma {:induction false} GuardIffOpenChain(f: Func, dt: DomTree, b: nat, e: Env)
    requires ValidTree(f, dt) && dt.Tree? && Sized(f, e) && b < |f.terms|
    ensures Holds(Guard(f, dt, b), e) <==> exists path :: OpenChain(f, path, b, e)
    decreases b
  {
    hide Leads, f.Dominates;
    if b == 0 {
      assert OpenChain(f, [0], 0, e);
    } else {
      GuardIffLed(f, dt, b, e);
      if Holds(Guard(f, dt, b), e) {
        var x: nat :| x < b && Leads(f, x, b, e) && Holds(Guard(f, dt, x), e);
        GuardIffOpenChain(f, dt, x, e);
        var before :| OpenChain(f, before, x, e);
        assert OpenChain(f, before + [b], b, e);
      }
      if path :| OpenChain(f, path, b, e) {
        var x, before := path[|path| - 2], path[..|path| - 1];
        assert Leads(f, path[|path| - 2], path[|path| - 1], e);
        LeadsBelow(f, dt, x, b, e);
        assert OpenChain(f, before, x, e);
        GuardIffOpenChain(f, dt, x, e);
      }
    }
  }

  lemma LeadsBelow(f: Func, dt: DomTree, x: nat, b: nat, e: Env)
    requires ValidTree(f, dt) && dt.Tree? && 0 < b < |f.terms| && Leads(f, x, b, e)
    ensures x < b
  {
    CommonDominatorUnique(f, dt, b, x);
    CommonDominatorBelow(f, dt, b);
  }

  /** One step of that. */
  lemma GuardIffLed(f: Func, dt: DomTree, b: nat, e: Env)
    requires ValidTree(f, dt) && dt.Tree? && Sized(f, e) && 0 < b < |f.terms|
    ensures Holds(Guard(f, dt, b), e) <==> exists x: nat :: x < b && Leads(f, x, b, e) && Holds(Guard(f, dt, x), e)
  {
    hide EdgeOpen, f.Dominates, NearestOfPreds;
    forall p: nat ensures p in f.preds[b] <==> f.Edge(p, b) {}
    if HasBackPred(f, b) {
      CommonDominatorBelow(f, dt, b);
      forall x: nat ensures NearestOfPreds(f, x, b) <==> x == CommonDominator(f, dt, b, |f.preds[b]|) {
        CommonDominatorUnique(f, dt, b, x);
      }
      assert Leads(f, CommonDominator(f, dt, b, |f.preds[b]|), b, e);
    } else {
      GuardUpToMeaning(f, dt, b, |f.preds[b]|, e);
      EntersFromAny(f, dt, b, |f.preds[b]|, e);
      if j :| 0 <= j < |f.preds[b]| && EntersFrom(f, dt, f.preds[b][j], b, e) {
        PredIsEdge(f, b, j);
        assert Leads(f, f.preds[b][j], b, e);
      }
      if x: nat :| x < b && Leads(f, x, b, e) && Holds(Guard(f, dt, x), e) {
        assert f.Edge(x, b) by { assert EdgeOpen(f, x, b, e); OpenIsEdge(f, x, b, e); }
        var j :| 0 <= j < |f.preds[b]| && f.preds[b][j] == x;
        assert EntersFrom(f, dt, f.preds[b][j], b, e);
      }
    }
  }

  lemma OpenIsEdge(f: Func, p: nat, b: nat, e: Env)
    requires EdgeOpen(f, p, b, e)
    ensures f.Edge(p, b)
  {}

  // ----- With a dominator tree: an invariant of every run

  /** The guards of all dominators of the current block hold, and the values available there are
      the results of their operands. */
  ghost predicate Invariant(f: Func, dt: DomTree, s: State)
    requires ValidTree(f, dt)
  {
    && s.block < |f.terms| && ValidEnv(f, s.env) && Consistent(f, s.block, s.env)
    && forall d: nat :: d < |f.terms| && f.Dominates(d, s.block) ==> Holds(Guard(f, dt, d), s.env)
  }

  /** A formula about blocks numbered below the one entered keeps its value. */
  lemma BelowUnchanged(f: Func, s: State, s': State, t: Term, h: int)
    requires Step(f, s, s') && Shaped(f, t, h) && h < s'.block
    ensures Eval(t, s'.env) == Eval(t, s.env)
  {
    forall u | 0 <= u < |f.values| && f.values[u].home <= h
      ensures Lookup(s.env, u) == Lookup(s'.env, u)
    {
    }
    OverFrame(f, t, h, s.env, s'.env);
  }

  lemma GuardCarries(f: Func, dt: DomTree, s: State, s': State, d: nat)
    requires ValidTree(f, dt) && Invariant(f, dt, s) && Step(f, s, s')
    requires d < s'.block && f.Dominates(d, s.block)
    ensures Holds(Guard(f, dt, d), s'.env)
  {
    assert f.Edge(s.block, s'.block);
    GuardShaped(f, dt, d);
    BelowUnchanged(f, s, s', Guard(f, dt, d), d);
  }

  /** The step takes an edge of a shape that the guard distinguishes, from values whose shifts the
      encoding gets right. */
  ghost predicate Regular(f: Func, s: State, s': State) {
    && s.block < |f.terms| && ShiftsAgree(f, s.block, s.env)
    && !Degenerate(f, s.block, s'.block, Lookup(s.env, Condition(f, s.block)))
  }

  /** Taking a forward edge opens it under the new values as well. */
  lemma EdgeOpens(f: Func, s: State, s': State)
    requires Regular(f, s, s') && Step(f, s, s') && s.block < s'.block
    requires ValidEnv(f, s.env) && Consistent(f, s.block, s.env)
    ensures EdgeOpen(f, s.block, s'.block, s'.env)
  {
    var p, b := s.block, s'.block;
    assert f.ValidTerm(p);
    var c := Condition(f, p);
    if f.terms[p].CondBr? || f.terms[p].Switch? {
      EncMeaning(f, c, p, s.env);
      AvailableShaped(f, c, p);
      BelowUnchanged(f, s, s', Enc(f, c), p);
    }
    forall v: nat | v < |f.values| && ConstrainedPhi(f, p, b, v)
      ensures Lookup(s'.env, v) == ValueUnder(f, f.values[v].def.incoming[p], s'.env)
    {
      PhiTyped(f, p, b, v);
      var u := f.values[v].def.incoming[p];
      assert PhiReads(f, v, s, s');
      EncMeaning(f, u, p, s.env);
      AvailableShaped(f, u, p);
      BelowUnchanged(f, s, s', Enc(f, u), p);
    }
  }

  /** The steps that the guard accounts for: with a dominator tree all steps into a block that a back
      edge enters, otherwise the regular ones along forward edges. */
  ghost predicate Covered(f: Func, dt: DomTree, s: State, s': State)
    requires s'.block < |f.preds|
  {
    if dt.Tree? && HasBackPred(f, s'.block) then true
    else (s.block, s'.block) !in f.back && Regular(f, s, s')
  }

  /** In a function without degenerate terminators, with arithmetic right shifts at power-of-two
      widths only, that is every step, or without a dominator tree every step along a forward edge. */
  lemma WellShapedCovered(f: Func, dt: DomTree, s: State, s': State)
    requires NonDegenerate(f) && SoundShifts(f) && Step(f, s, s')
    requires dt.Tree? || (s.block, s'.block) !in f.back
    ensures Covered(f, dt, s, s')
  {
    SoundShiftsAgree(f, s.block, s.env);
    NotDegenerate(f, s.block, s'.block, Lookup(s.env, Condition(f, s.block)));
    assert s.block in f.preds[s'.block];
  }

  lemma EnteredGuardHolds(f: Func, dt: DomTree, s: State, s': State)
    requires ValidTree(f, dt) && Invariant(f, dt, s) && Step(f, s, s') && Covered(f, dt, s, s')
    ensures Holds(Guard(f, dt, s'.block), s'.env)
  {
    var p, b := s.block, s'.block;
    assert f.Edge(p, b) && p in f.preds[b];
    var j :| 0 <= j < |f.preds[b]| && f.preds[b][j] == p;
    if dt.Tree? && HasBackPred(f, b) {
      CommonDominatorBelow(f, dt, b);
      CommonDominatorDominates(f, dt, b, |f.preds[b]|);
      GuardCarries(f, dt, s, s', CommonDominator(f, dt, b, |f.preds[b]|));
    } else {
      EdgeOpens(f, s, s');
      SelfDominates(f, p);
      GuardCarries(f, dt, s, s', p);
      assert EntersFrom(f, dt, f.preds[b][j], b, s'.env);
      EntersFromAny(f, dt, b, |f.preds[b]|, s'.env);
      GuardUpToMeaning(f, dt, b, |f.preds[b]|, s'.env);
    }
  }

  lemma StepKeepsInvariant(f: Func, dt: DomTree, s: State, s': State)
    requires ValidTree(f, dt) && Invariant(f, dt, s) && Step(f, s, s') && Covered(f, dt, s, s')
    ensures Invariant(f, dt, s')
  {
    assert f.Edge(s.block, s'.block);
    StepConsistent(f, s, s');
    forall d: nat | d < |f.terms| && f.Dominates(d, s'.block)
      ensures Holds(Guard(f, dt, d), s'.env)
    {
      if d == s'.block {
        EnteredGuardHolds(f, dt, s, s');
      } else {
        DominatorBelow(f, d, s'.block);
        DominatesPred(f, d, s.block, s'.block);
        GuardCarries(f, dt, s, s', d);
      }
    }
  }

  lemma InitialInvariant(f: Func, dt: DomTree, s: State)
    requires ValidTree(f, dt) && Initial(f, s)
    ensures Invariant(f, dt, s)
  {
    InitialConsistent(f, s);
    forall d: nat | d < |f.terms| && f.Dominates(d, 0)
      ensures Holds(Guard(f, dt, d), s.env)
    {
      DominatorBelow(f, d, 0);
    }
  }

  ghost predicate CoveredRun(f: Func, dt: DomTree, run: seq<State>) {
    forall i :: 0 < i < |run| ==> run[i].block < |f.preds| && Covered(f, dt, run[i - 1], run[i])
  }

  /** Without a dominator tree only runs that take no back edge are accounted for. */
  ghost predicate ForwardRun(f: Func, run: seq<State>) {
    forall i :: 0 < i < |run| ==> (run[i - 1].block, run[i].block) !in f.back
  }

  lemma WellShapedRunCovered(f: Func, dt: DomTree, run: seq<State>)
    requires NonDegenerate(f) && SoundShifts(f) && Execution(f, run)
    requires dt.Tree? || ForwardRun(f, run)
    ensures CoveredRun(f, dt, run)
  {
    forall i | 0 < i < |run|
      ensures run[i].block < |f.preds| && Covered(f, dt, run[i - 1], run[i])
    {
      assert Step(f, run[i - 1], run[i]);
      WellShapedCovered(f, dt, run[i - 1], run[i]);
    }
  }

  /** The main result: at every point of every run, of any length, the path predicate of the
      current block is true of the current values, if the guards account for the steps of the run.
      For a well-shaped function that is every run, or without a dominator tree every run that takes
      no back edge. */
  lemma {:induction false} RunsSatisfyGuards(f: Func, dt: DomTree, run: seq<State>)
    requires ValidTree(f, dt) && Execution(f, run) && CoveredRun(f, dt, run)
    ensures Invariant(f, dt, run[|run| - 1])
    ensures var s := run[|run| - 1]; Holds(Guard(f, dt, s.block), s.env)
    decreases |run|
  {
    var n := |run|;
    if n == 1 {
      InitialInvariant(f, dt, run[0]);
    } else {
      var before := run[..n - 1];
      assert Execution(f, before) by {
        forall i | 0 < i < |before|
          ensures Step(f, before[i - 1], before[i])
        {
          assert Step(f, run[i - 1], run[i]);
        }
      }
      assert CoveredRun(f, dt, before) by {
        forall i | 0 < i < |before|
          ensures before[i].block < |f.preds| && Covered(f, dt, before[i - 1], before[i])
        {
          assert Covered(f, dt, run[i - 1], run[i]);
        }
      }
      RunsSatisfyGuards(f, dt, before);
      assert Step(f, run[n - 2], run[n - 1]) && Covered(f, dt, run[n - 2], run[n - 1]);
      StepKeepsInvariant(f, dt, run[n - 2], run[n - 1]);
    }
    SelfDominates(f, run[n - 1].block);
  }
}
