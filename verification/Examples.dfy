/** Runs at which the checkers' answers can be seen: a branch with two equal successors, on which
    CmpSat is wrong, and a division whose check IntSat cannot refute. */
module Examples {
  import opened BitVec
  import opened Terms
  import opened Solver
  import opened SSA
  import opened ValueEncoding
  import opened PathEncoding
  import opened PathSoundness
  import opened Checkers

  lemma SmallPowers()
    ensures Pow2(1) == 2 && Pow2(8) == 256
  {}

  // ----- "if (c) goto 1; else goto 1;  1: if (c) goto 2; else goto 3;"

  const EQUAL_SUCCESSORS: RawFunc := Func(
    [Value(Argument, 1, true, GLOBAL, [])],
    [CondBr(0, 1, 1), CondBr(0, 2, 3), Exit, Exit], [[], [0, 0], [1], [1]], {}, 64)

  /** The run in which c is false. */
  const FALSE_RUN: seq<State> := [State(0, [0]), State(1, [0])]

  ghost function EqualSuccessors(): (f: Func)
    ensures f == EQUAL_SUCCESSORS
  {
    EqualSuccessorsValid();
    EQUAL_SUCCESSORS
  }

  lemma EqualSuccessorsValid()
    ensures EQUAL_SUCCESSORS.Valid()
  {
    hide Pow2;
    var f := EQUAL_SUCCESSORS;
    assert f.Available(0, 0) && f.Available(0, 1);
    assert Successors(f.terms[0]) == {1} && Successors(f.terms[1]) == {2, 3};
    assert f.Edge(0, 1) && f.Edge(1, 2) && f.Edge(1, 3);
    assert f.HasForwardPred(1) && f.HasForwardPred(2) && f.HasForwardPred(3);
    assert f.ValidTerm(0) && f.ValidTerm(1) && f.ValidTerm(2) && f.ValidTerm(3);
    assert f.ValidValue(0);
  }

  lemma FalseRunExecutes()
    ensures Execution(EqualSuccessors(), FALSE_RUN)
  {
    SmallPowers();
    var f := EqualSuccessors();
    assert f.Edge(0, 1) && Chooses(f, 0, 1, 0);
    assert ValidEnv(f, [0]);
    assert Initial(f, FALSE_RUN[0]) && Step(f, FALSE_RUN[0], FALSE_RUN[1]);
  }

  /** The nearest common dominator in the example. */
  const TREE: DomTree := Tree((a, b) => if a == b then a else if a == 0 || b == 0 then 0 else 1)

  lemma TreeValid()
    ensures ValidTree(EqualSuccessors(), TREE)
  {
    var f := EqualSuccessors();
    assert f.Path([0], 0) && f.Path([0, 1], 1) && f.Path([0, 1, 2], 2) && f.Path([0, 1, 3], 3);
    forall b: nat, path | b < 4 && f.Path(path, b) ensures 0 in path && b in path && (b >= 2 ==> 1 in path) {
      if b >= 2 { assert f.Edge(path[|path| - 2], b); }
    }
    forall a: nat, b: nat | a < 4 && b < 4 ensures IsNearest(f, TREE.nearest(a, b), a, b) {}
  }

  /** The guard of block 1 says that c is true. */
  lemma OnlyTrueEnters(dt: DomTree, e: Env)
    requires ValidTree(EqualSuccessors(), dt) && Sized(EqualSuccessors(), e)
    ensures Holds(Guard(EqualSuccessors(), dt, 1), e) <==> Lookup(e, 0) == 1
  {
    hide Pow2, EdgeGuard, PhisAgree;
    var f := EqualSuccessors();
    GuardUpToMeaning(f, dt, 1, 2, e);
    EntersFromAny(f, dt, 1, 2, e);
    NoPhis(e);
    assert ValueUnder(f, Condition(f, 0), e) == Lookup(e, 0);
    assert f.preds[1][0] == 0 && f.preds[1][1] == 0 && Guard(f, dt, 0) == True;
    assert EntersFrom(f, dt, 0, 1, e) <==> Lookup(e, 0) == 1;
  }

  lemma NoPhis(e: Env)
    ensures PhisAgree(EqualSuccessors(), 0, 1, 1, e)
  {}

  /** Both successors of the first branch are block 1, and its guard is that of the true edge alone.
      A run with c false gets there nevertheless, and a sound and complete solver lets CmpSat say of
      the second branch that c is always true. */
  lemma EqualSuccessorsExample(dt: DomTree, decide: (set<Term>, Term) -> SMTStatus)
    requires ValidTree(EqualSuccessors(), dt) && SoundDecision(decide) && CompleteDecision(decide)
    ensures Execution(EqualSuccessors(), FALSE_RUN) && Lookup(FALSE_RUN[1].env, 0) == 0
    ensures FALSE_RUN[1].block == 1 && !Holds(Guard(EqualSuccessors(), dt, 1), FALSE_RUN[1].env)
    ensures CmpVerdict(EqualSuccessors(), dt, 1, decide) == CmpTrue
  {
    hide Guard, Asserted, Assigns;
    var f := EqualSuccessors();
    FalseRunExecutes();
    var value, path := Enc(f, 0), Guard(f, dt, 1);
    OnlyTrueEnters(dt, [0]);
    AvailableShaped(f, 0, 1);
    GuardShaped(f, dt, 1);
    TrueIsPossible(dt, decide);
    forall e: Env | Assigns(e, Conj(Not(value), path)) ensures !Holds(Conj(Not(value), path), e) {
      FalseIsImpossible(dt, e);
    }
  }

  lemma TrueIsPossible(dt: DomTree, decide: (set<Term>, Term) -> SMTStatus)
    requires ValidTree(EqualSuccessors(), dt) && SoundDecision(decide)
    ensures var f := EqualSuccessors();
            decide(Asserted(f, dt, 0, 1), Conj(Enc(f, 0), Guard(f, dt, 1))) != UNSAT
  {
    hide Guard, Asserted, Shaped, Pow2;
    SmallPowers();
    var f := EqualSuccessors();
    var value, path := Enc(f, 0), Guard(f, dt, 1);
    assert ValidEnv(f, [1]);
    OnlyTrueEnters(dt, [1]);
    HoldsConnectives(value, path, [1]);
    AvailableShaped(f, 0, 1);
    GuardShaped(f, dt, 1);
    ShapedPair(f, Conj(value, path), value, path, 1);
    if decide(Asserted(f, dt, 0, 1), Conj(value, path)) == UNSAT {
      UnsatMeansFalse(f, dt, 0, 1, decide, Conj(value, path), 1, [1]);
    }
  }

  lemma FalseIsImpossible(dt: DomTree, e: Env)
    requires ValidTree(EqualSuccessors(), dt)
    requires var f := EqualSuccessors(); Assigns(e, Conj(Not(Enc(f, 0)), Guard(f, dt, 1)))
    ensures var f := EqualSuccessors(); !Holds(Conj(Not(Enc(f, 0)), Guard(f, dt, 1)), e)
  {
    hide Guard, Shaped, Pow2;
    SmallPowers();
    var f := EqualSuccessors();
    var value, path := Enc(f, 0), Guard(f, dt, 1);
    assert (1, 0) in Vars(Conj(Not(value), path));
    assert Sized(f, e);
    OnlyTrueEnters(dt, e);
    GuardShaped(f, dt, 1);
    OneBit(f, path, 1, e);
    HoldsConnectives(value, path, e);
    HoldsConnectives(Not(value), path, e);
  }

  // ----- "if (x < 5) { 1: if (x > 10) goto 2; else goto 3; }", in 8 bits

  const NESTED: RawFunc := Func(
    [Value(Argument, 8, true, GLOBAL, []), Value(ConstInt(5), 8, true, GLOBAL, []),
     Value(ConstInt(10), 8, true, GLOBAL, []), Value(ICmp(Ult, 0, 1), 1, true, 0, []),
     Value(ICmp(Ugt, 0, 2), 1, true, 1, [])],
    [CondBr(3, 1, 2), CondBr(4, 2, 3), Exit, Exit], [[], [0], [0, 1], [1]], {}, 64)

  ghost function Nested(): (f: Func)
    ensures f == NESTED
  {
    NestedValid();
    NESTED
  }

  lemma NestedValid()
    ensures NESTED.Valid()
  {
    hide Pow2, NESTED.ValidValue, NESTED.ValidTerm;
    var f := NESTED;
    assert Successors(f.terms[0]) == {1, 2} && Successors(f.terms[1]) == {2, 3};
    assert f.Edge(0, 1) && f.Edge(0, 2) && f.Edge(1, 2) && f.Edge(1, 3);
    assert f.HasForwardPred(1) && f.HasForwardPred(2) && f.HasForwardPred(3);
    forall v: nat | v < |f.values| ensures f.ValidValue(v) { NestedValue(v); }
    forall b: nat | b < |f.terms| ensures f.ValidTerm(b) { NestedTerm(b); }
  }

  lemma NestedValue(v: nat)
    requires v < |NESTED.values|
    ensures NESTED.ValidValue(v)
  {
    hide Pow2;
    SmallPowers();
    assert v == 0 || v == 1 || v == 2 || v == 3 || v == 4;
  }

  lemma NestedTerm(b: nat)
    requires b < |NESTED.terms|
    ensures NESTED.ValidTerm(b)
  {
    hide Pow2;
    assert NESTED.Available(3, 0) && NESTED.Available(4, 1);
    assert b == 0 || b == 1 || b == 2 || b == 3;
  }

  /** The path predicate of block 1 says that x is below 5. */
  lemma SmallEnters(dt: DomTree, e: Env)
    requires ValidTree(Nested(), dt) && Lookup(e, 0) < 256 && Holds(Guard(Nested(), dt, 1), e)
    ensures Lookup(e, 0) < 5
  {
    hide Pow2, EdgeGuard, PhisAgree, Guard, Enc;
    SmallPowers();
    var f := Nested();
    var e' := [Lookup(e, 0), 5, 10, 0, 0];
    GuardShaped(f, dt, 1);
    OverFrame(f, Guard(f, dt, 1), 1, e, e');
    assert Guard(f, dt, 1) == GuardUpTo(f, dt, 1, 1) by { NestedGuard(dt); }
    GuardUpToMeaning(f, dt, 1, 1, e');
    EntersFromAny(f, dt, 1, 1, e');
    ConditionsMean(e');
  }

  lemma NestedGuard(dt: DomTree)
    requires ValidTree(Nested(), dt)
    ensures Guard(Nested(), dt, 1) == GuardUpTo(Nested(), dt, 1, 1)
  {}

  lemma ConditionsMean(e: Env)
    ensures Eval(Enc(Nested(), 3), e) == BoolBit(Lookup(e, 0) < 5)
    ensures Eval(Enc(Nested(), 4), e) == BoolBit(Lookup(e, 0) > 10)
  {
    hide Pow2;
    SmallPowers();
    var f := Nested();
    assert Enc(f, 0) == Var(8, 0) && Enc(f, 1) == Const(8, 5) && Enc(f, 2) == Const(8, 10);
  }

  /** A sound and complete solver lets CmpSat find that the inner condition is always false. */
  lemma NestedExample(dt: DomTree, decide: (set<Term>, Term) -> SMTStatus)
    requires ValidTree(Nested(), dt) && SoundDecision(decide) && CompleteDecision(decide)
    ensures CmpVerdict(Nested(), dt, 1, decide) == CmpFalse
  {
    hide Guard, Pow2, CmpVerdict;
    SmallPowers();
    var f := Nested();
    forall e: Env | Allowed(f, dt, 4, 1, e) && Holds(Guard(f, dt, 1), e) ensures Eval(Enc(f, 4), e) == 0 {
      assert Enc(f, 4) == Cmp(Ugt, Var(8, 0), Const(8, 10));
      assert (8, 0) in Vars(Enc(f, 4));
      SmallEnters(dt, e);
      ConditionsMean(e);
    }
    CompleteVerdict(f, dt, 1, decide);
  }

  // ----- "1 / d" and its check "d == 0", in 8 bits

  const DIVISION: RawFunc := Func(
    [Value(Argument, 8, true, GLOBAL, []), Value(ConstInt(0), 8, true, GLOBAL, []),
     Value(ConstInt(1), 8, true, GLOBAL, []), Value(ICmp(Eq, 0, 1), 1, true, 0, []),
     Value(Binary(Plain(UDiv), 2, 0), 8, true, 0, [])],
    [Exit], [[]], {}, 64)

  const ZERO_RUN: seq<State> := [State(0, [0, 0, 1, 1, 255])]

  ghost function Division(): (f: Func)
    ensures f == DIVISION
  {
    DivisionValid();
    DIVISION
  }

  lemma DivisionValid()
    ensures DIVISION.Valid()
  {
    hide Pow2;
    SmallPowers();
    forall v: nat | v < |DIVISION.values| ensures DIVISION.ValidValue(v) {
      assert v == 0 || v == 1 || v == 2 || v == 3 || v == 4;
    }
    assert DIVISION.ValidTerm(0);
  }

  lemma ZeroRunExecutes()
    ensures Execution(Division(), ZERO_RUN)
  {
    hide Pow2;
    SmallPowers();
    var f, e := Division(), ZERO_RUN[0].env;
    forall v: nat | v < 5 ensures Lookup(e, v) < Pow2(f.values[v].width) && Computes(f, v, e) {
      assert v == 0 || v == 1 || v == 2 || v == 3 || v == 4;
    }
  }

  /** A run divides by zero in the block of the division and its check, so the check is not harmless,
      and no sound solver refutes it. */
  lemma DivisionExample(decide: (set<Term>, Term) -> SMTStatus)
    requires SoundDecision(decide)
    ensures Execution(Division(), ZERO_RUN) && Lookup(ZERO_RUN[0].env, 3) == 1
    ensures !Harmless(Division(), 3, 0) && Answer(Division(), decide, 3, 0) != UNSAT
  {
    hide Answer;
    var f := Division();
    ZeroRunExecutes();
    assert Arrives(f, NoTree, ZERO_RUN, 0);
    if Answer(f, decide, 3, 0) == UNSAT { UnsatIsHarmless(f, 3, 0, decide); }
  }
}
