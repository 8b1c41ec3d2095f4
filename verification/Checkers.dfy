/** The two clients of the encoders: CmpSat (is a branch condition constant?) and IntSat (can a
    bug condition be true?).  Each creates a solver and the two encoders, queries, and destroys
    them again; the solver's destructor demands that no reference is left. */
module Checkers {
  import opened Terms
  import opened Solver
  import opened SSA
  import opened ValueEncoding
  import opened ValueGens
  import opened PathEncoding
  import opened PathSoundness
  import opened PathGens

  /** What the solver has been told once the value v and the guard of block b are encoded. */
  ghost function Asserted(f: Func, dt: DomTree, v: nat, b: nat): set<Term>
    requires ValidTree(f, dt) && Encodable(f, v) && b < |f.terms|
  {
    Ranges(f, v) + GuardRanges(f, dt, b)
  }

  datatype CmpReason = NoReason | CmpFalse | CmpTrue

  /** The verdict on the branch of block b: a function of the two answers of the solver. */
  ghost function CmpVerdict(f: Func, dt: DomTree, b: nat, decide: (set<Term>, Term) -> SMTStatus): CmpReason
    requires ValidTree(f, dt) && b < |f.terms| && f.terms[b].CondBr? && Encodable(f, f.terms[b].cond)
  {
    var value, path := Enc(f, f.terms[b].cond), Guard(f, dt, b);
    var asserted := Asserted(f, dt, f.terms[b].cond, b);
    if decide(asserted, Conj(value, path)) == UNSAT then CmpFalse
    else if decide(asserted, Conj(Not(value), path)) == UNSAT then CmpTrue
    else NoReason
  }

  lemma ConditionEncodable(f: Func, b: nat)
    requires b < |f.terms| && f.terms[b].CondBr?
    ensures var c := f.terms[b].cond;
            Encodable(f, c) && f.values[c].width == 1 && f.Available(c, b)
  {
    assert f.ValidTerm(b);
  }

  /** The run ends in block b, the guards account for its steps, and in its last state the encoding
      gets the shifts right. In a well-shaped function that is every run that ends in b, or without
      a dominator tree every such run that takes no back edge. */
  ghost predicate Arrives(f: Func, dt: DomTree, run: seq<State>, b: nat) {
    && Execution(f, run) && CoveredRun(f, dt, run)
    && run[|run| - 1].block == b && ShiftsAgree(f, b, run[|run| - 1].env)
  }

  lemma WellShapedArrives(f: Func, dt: DomTree, run: seq<State>)
    requires NonDegenerate(f) && SoundShifts(f) && Execution(f, run) && (dt.Tree? || ForwardRun(f, run))
    ensures Arrives(f, dt, run, run[|run| - 1].block)
  {
    WellShapedRunCovered(f, dt, run);
    SoundShiftsAgree(f, run[|run| - 1].block, run[|run| - 1].env);
  }

  /** CmpSat::check. */
  method CheckBranch(f: Func, dt: DomTree, b: nat, decide: (set<Term>, Term) -> SMTStatus)
    returns (reason: CmpReason)
    requires ValidTree(f, dt) && dt.Tree? && b < |f.terms| && f.terms[b].CondBr? && SoundDecision(decide)
    ensures Encodable(f, f.terms[b].cond) && reason == CmpVerdict(f, dt, b, decide)
    ensures forall run: seq<State> :: Arrives(f, dt, run, b) ==>
              var x := Lookup(run[|run| - 1].env, f.terms[b].cond);
              (reason == CmpFalse ==> x == 0) && (reason == CmpTrue ==> x == 1)
  {
    hide Enc, Guard, CacheRefs, Ranges, GuardRanges;
    ConditionEncodable(f, b);
    var v := f.terms[b].cond;
    var smt := new SMTSolver(decide);
    var vg := new ValueGen(f, smt);
    var pg := new PathGen(vg, dt);
    var valuePred := vg.Get(v, pg.Owned());
    assert pg.Balanced(multiset{});
    var pathPred := pg.Get(b, multiset{});
    vg.Cached(v, pg.Owned());
    assert smt.asserted == Asserted(f, dt, v, b);
    reason := Decide(smt, valuePred, pathPred);
    pg.Delete(multiset{});
    vg.Delete(multiset{});
    smt.Delete();
    forall run: seq<State> | Arrives(f, dt, run, b)
      ensures var x := Lookup(run[|run| - 1].env, v);
              (reason == CmpFalse ==> x == 0) && (reason == CmpTrue ==> x == 1)
    {
      VerdictSound(f, dt, b, decide, run);
    }
  }

  /** The two queries: can the condition be true, and if so, can it be false? */
  method Decide(smt: SMTSolver, valuePred: Term, pathPred: Term) returns (reason: CmpReason)
    requires valuePred in smt.refs && pathPred in smt.refs && Width(valuePred) == Width(pathPred) == 1
    modifies smt`refs
    ensures smt.refs == old(smt.refs)
    ensures reason == if smt.decide(smt.asserted, Conj(valuePred, pathPred)) == UNSAT then CmpFalse
                      else if smt.decide(smt.asserted, Conj(Not(valuePred), pathPred)) == UNSAT then CmpTrue
                      else NoReason
  {
    reason := NoReason;
    var status := QueryAndRelease(smt, Conj(valuePred, pathPred));
    if status == UNSAT {
      reason := CmpFalse;
    } else {
      var notValuePred := smt.Build(Not(valuePred));
      status := QueryAndRelease(smt, Conj(notValuePred, pathPred));
      smt.Decref(notValuePred);
      if status == UNSAT {
        reason := CmpTrue;
      }
    }
  }

  /** "Query = bvand(...); Status = SMT.query(Query); decref(Query)". */
  method QueryAndRelease(smt: SMTSolver, q: Term) returns (status: SMTStatus)
    requires !Aborts(q) && Width(q) == 1 && forall x :: x in Operands(q) ==> x in smt.refs
    modifies smt`refs
    ensures smt.refs == old(smt.refs) && status == smt.decide(smt.asserted, q)
  {
    var query := smt.Build(q);
    status := smt.Query(query);
    smt.Decref(query);
  }

  lemma AssertedHold(f: Func, dt: DomTree, v: nat, b: nat, e: Env)
    requires ValidTree(f, dt) && Encodable(f, v) && b < |f.terms| && ValidEnv(f, e)
    ensures forall c :: c in Asserted(f, dt, v, b) ==> Assigns(e, c) && Holds(c, e)
  {
    hide Ranges, GuardRanges, Assigns, Holds;
    forall c | c in Asserted(f, dt, v, b)
      ensures Assigns(e, c) && Holds(c, e)
    {
      if c in Ranges(f, v) {
        RangesHold(f, v, c, e);
      } else {
        GuardRangesHold(f, dt, b, c, e);
      }
    }
  }

  /** An unsatisfiable query is false in the environment of every run. */
  lemma UnsatMeansFalse(
    f: Func, dt: DomTree, v: nat, b: nat, decide: (set<Term>, Term) -> SMTStatus, q: Term, h: int, e: Env)
    requires ValidTree(f, dt) && Encodable(f, v) && b < |f.terms| && SoundDecision(decide)
    requires decide(Asserted(f, dt, v, b), q) == UNSAT && Shaped(f, q, h) && ValidEnv(f, e)
    ensures !Holds(q, e)
  {
    hide Asserted;
    AssertedHold(f, dt, v, b, e);
    assert Assigns(e, q);
  }

  /** At the end of a run the formulas have the values of the run. */
  lemma FormulasAtEnd(f: Func, dt: DomTree, v: nat, b: nat, run: seq<State>)
    requires ValidTree(f, dt) && Arrives(f, dt, run, b)
    requires Encodable(f, v) && f.values[v].width == 1 && f.Available(v, b)
    ensures b < |f.terms| && ValidEnv(f, run[|run| - 1].env)
    ensures var e := run[|run| - 1].env;
            && Eval(Enc(f, v), e) == Lookup(e, v) < 2 && Eval(Guard(f, dt, b), e) == 1
            && Shaped(f, Enc(f, v), b) && Shaped(f, Guard(f, dt, b), b)
  {
    hide Enc, Guard;
    var e := run[|run| - 1].env;
    RunsSatisfyGuards(f, dt, run);
    EncMeaning(f, v, b, e);
    AvailableShaped(f, v, b);
    GuardShaped(f, dt, b);
    OneBit(f, Enc(f, v), b, e);
  }

  lemma VerdictSound(f: Func, dt: DomTree, b: nat, decide: (set<Term>, Term) -> SMTStatus, run: seq<State>)
    requires ValidTree(f, dt) && SoundDecision(decide) && Arrives(f, dt, run, b)
    requires b < |f.terms| && f.terms[b].CondBr? && Encodable(f, f.terms[b].cond)
    ensures var x := Lookup(run[|run| - 1].env, f.terms[b].cond);
            var verdict := CmpVerdict(f, dt, b, decide);
            (verdict == CmpFalse ==> x == 0) && (verdict == CmpTrue ==> x == 1)
  {
    hide Enc, Guard, CmpVerdict, CoveredRun, Shaped;
    ConditionEncodable(f, b);
    FormulasAtEnd(f, dt, f.terms[b].cond, b, run);
    VerdictInEnv(f, dt, b, decide, run[|run| - 1].env);
  }

  /** The same for any assignment inside the annotated ranges that satisfies the path predicate. */
  lemma VerdictInEnv(f: Func, dt: DomTree, b: nat, decide: (set<Term>, Term) -> SMTStatus, e: Env)
    requires ValidTree(f, dt) && SoundDecision(decide) && ValidEnv(f, e)
    requires b < |f.terms| && f.terms[b].CondBr? && Encodable(f, f.terms[b].cond) && Holds(Guard(f, dt, b), e)
    ensures var x := Eval(Enc(f, f.terms[b].cond), e);
            var verdict := CmpVerdict(f, dt, b, decide);
            (verdict == CmpFalse ==> x == 0) && (verdict == CmpTrue ==> x == 1)
  {
    hide Enc, Guard, Asserted, Shaped;
    var v := f.terms[b].cond;
    ConditionEncodable(f, b);
    var value, path := Enc(f, v), Guard(f, dt, b);
    AvailableShaped(f, v, b);
    GuardShaped(f, dt, b);
    OneBit(f, value, b, e);
    OneBit(f, path, b, e);
    ShapedNode(f, Not(value), b);
    ShapedPair(f, Conj(value, path), value, path, b);
    ShapedPair(f, Conj(Not(value), path), Not(value), path, b);
    HoldsConnectives(value, path, e);
    HoldsConnectives(Not(value), path, e);
    if decide(Asserted(f, dt, v, b), Conj(value, path)) == UNSAT {
      UnsatMeansFalse(f, dt, v, b, decide, Conj(value, path), b, e);
    } else if decide(Asserted(f, dt, v, b), Conj(Not(value), path)) == UNSAT {
      UnsatMeansFalse(f, dt, v, b, decide, Conj(Not(value), path), b, e);
    }
  }

  // ----- What a complete solver finds

  /** The variables of the two formulas have values of their widths and inside their ranges. */
  ghost predicate Allowed(f: Func, dt: DomTree, v: nat, b: nat, e: Env)
    requires ValidTree(f, dt) && Encodable(f, v) && b < |f.terms|
  {
    && Assigns(e, Enc(f, v)) && VarsInRanges(f, Enc(f, v), e)
    && Assigns(e, Guard(f, dt, b)) && VarsInRanges(f, Guard(f, dt, b), e)
  }

  /** Nothing that satisfies the path predicate of b gives v another value than x. */
  ghost predicate Always(f: Func, dt: DomTree, v: nat, b: nat, x: nat)
    requires ValidTree(f, dt) && Encodable(f, v) && b < |f.terms|
  {
    forall e: Env :: Allowed(f, dt, v, b, e) && Holds(Guard(f, dt, b), e) ==> Eval(Enc(f, v), e) == x
  }

  lemma AssertedMeans(f: Func, dt: DomTree, v: nat, b: nat, e: Env)
    requires ValidTree(f, dt) && Encodable(f, v) && b < |f.terms|
    requires Assigns(e, Enc(f, v)) && Assigns(e, Guard(f, dt, b))
    requires forall c :: c in Asserted(f, dt, v, b) ==> Holds(c, e)
    ensures Allowed(f, dt, v, b, e)
  {
    hide Enc, Guard, Holds, Assigns, VarsInRanges, Ranges, GuardRanges;
    RangesExact(f, v, e);
    GuardRangesCover(f, dt, b, e);
  }

  /** The query for the value that a constant does not have is refuted. */
  lemma ConstantIsRefuted(f: Func, dt: DomTree, v: nat, b: nat, x: nat)
    requires ValidTree(f, dt) && Encodable(f, v) && b < |f.terms| && f.values[v].width == 1
    requires x < 2 && Always(f, dt, v, b, x)
    ensures Refuted(Asserted(f, dt, v, b), Conj(if x == 0 then Enc(f, v) else Not(Enc(f, v)), Guard(f, dt, b)))
  {
    hide Enc, Guard, Asserted, VarsInRanges;
    var value, path := Enc(f, v), Guard(f, dt, b);
    var t := if x == 0 then value else Not(value);
    VarsOfDisj(t, path);
    assert Vars(t) == Vars(value);
    forall e: Env | Assigns(e, Conj(t, path)) && forall c :: c in Asserted(f, dt, v, b) ==> Assigns(e, c) && Holds(c, e)
      ensures !Holds(Conj(t, path), e)
    {
      assert Assigns(e, value) && Assigns(e, path);
      AssertedMeans(f, dt, v, b, e);
      EncShaped(f, v);
      GuardShaped(f, dt, b);
      OneBitAssigned(value, e);
      OneBitAssigned(path, e);
      HoldsConnectives(value, path, e);
      HoldsConnectives(Not(value), path, e);
    }
  }

  /** With a sound and complete solver, a branch whose condition is false (true) under everything that
      satisfies its path predicate is reported, and none that can be true (false) is reported as
      false (true). */
  lemma CompleteVerdict(f: Func, dt: DomTree, b: nat, decide: (set<Term>, Term) -> SMTStatus)
    requires ValidTree(f, dt) && SoundDecision(decide) && CompleteDecision(decide)
    requires b < |f.terms| && f.terms[b].CondBr? && Encodable(f, f.terms[b].cond)
    ensures var c := f.terms[b].cond; var verdict := CmpVerdict(f, dt, b, decide);
            && (Always(f, dt, c, b, 0) ==> verdict == CmpFalse)
            && (Always(f, dt, c, b, 1) ==> verdict != NoReason)
            && (forall e :: ValidEnv(f, e) && Holds(Guard(f, dt, b), e) ==>
                  (verdict == CmpFalse ==> Eval(Enc(f, c), e) == 0) && (verdict == CmpTrue ==> Eval(Enc(f, c), e) == 1))
  {
    hide Enc, Guard, Asserted, Allowed, Always;
    var c := f.terms[b].cond;
    ConditionEncodable(f, b);
    var value, path := Enc(f, c), Guard(f, dt, b);
    if Always(f, dt, c, b, 0) { ConstantIsRefuted(f, dt, c, b, 0); }
    if Always(f, dt, c, b, 1) { ConstantIsRefuted(f, dt, c, b, 1); }
    forall e | ValidEnv(f, e) && Holds(path, e)
      ensures var verdict := CmpVerdict(f, dt, b, decide);
              (verdict == CmpFalse ==> Eval(value, e) == 0) && (verdict == CmpTrue ==> Eval(value, e) == 1)
    {
      VerdictInEnv(f, dt, b, decide, e);
    }
  }

  // ----- IntSat

  /** The solver's answer to the question whether v can be true in block b. */
  ghost function Answer(f: Func, decide: (set<Term>, Term) -> SMTStatus, v: nat, b: nat): SMTStatus
    requires b < |f.terms| && Encodable(f, v)
  {
    decide(Asserted(f, NoTree, v, b), Conj(Enc(f, v), Guard(f, NoTree, b)))
  }

  /** No run that takes no back edge and that the guards account for arrives in block b with v true. */
  ghost predicate Harmless(f: Func, v: nat, b: nat) {
    forall run: seq<State> :: Arrives(f, NoTree, run, b) ==> Lookup(run[|run| - 1].env, v) == 0
  }

  /** IntSat::query, without the report: can the bug condition v be true at the check in block b?
      It skips back edges, so UNSAT speaks about forward paths. */
  method QueryBug(f: Func, v: nat, b: nat, decide: (set<Term>, Term) -> SMTStatus) returns (status: SMTStatus)
    requires SoundDecision(decide) && b < |f.terms| && Encodable(f, v) && f.values[v].width == 1
    ensures status == Answer(f, decide, v, b)
    ensures status == UNSAT && f.Available(v, b) ==> Harmless(f, v, b)
    ensures status == UNSAT ==> forall e, path :: ValidEnv(f, e) && OpenPath(f, path, b, e) ==> ValueUnder(f, v, e) == 0
  {
    hide Enc, Guard, CacheRefs, Ranges, GuardRanges, f.Available;
    hide Harmless, SoundDecision, OpenPath, ValidEnv, Encodable;
    var smt := new SMTSolver(decide);
    var vg := new ValueGen(f, smt);
    var pg := new PathGen(vg, NoTree);
    var value := vg.Get(v, pg.Owned());
    assert pg.Balanced(multiset{});
    var path := pg.Get(b, multiset{});
    vg.Cached(v, pg.Owned());
    assert smt.asserted == Asserted(f, NoTree, v, b);
    status := QueryAndRelease(smt, Conj(value, path));
    pg.Delete(multiset{});
    vg.Delete(multiset{});
    smt.Delete();
    if status == UNSAT {
      forall e, path | ValidEnv(f, e) && OpenPath(f, path, b, e)
        ensures ValueUnder(f, v, e) == 0
      {
        BugUnreachable(f, v, b, decide, path, e);
      }
      if f.Available(v, b) { UnsatIsHarmless(f, v, b, decide); }
    }
  }

  lemma BugUnreachable(f: Func, v: nat, b: nat, decide: (set<Term>, Term) -> SMTStatus, path: seq<nat>, e: Env)
    requires SoundDecision(decide) && b < |f.terms| && Encodable(f, v) && f.values[v].width == 1
    requires Answer(f, decide, v, b) == UNSAT && ValidEnv(f, e) && OpenPath(f, path, b, e)
    ensures ValueUnder(f, v, e) == 0
  {
    hide Asserted;
    var value, guard := Enc(f, v), Guard(f, NoTree, b);
    GuardIffOpenPath(f, b, e);
    var home := f.values[v].home;
    var h := if home <= b then b else home;
    EncShaped(f, v);
    GuardShaped(f, NoTree, b);
    ShapedWider(f, value, home, h);
    ShapedWider(f, guard, b, h);
    ShapedPair(f, Conj(value, guard), value, guard, h);
    OneBit(f, value, h, e);
    OneBit(f, guard, h, e);
    HoldsConnectives(value, guard, e);
    UnsatMeansFalse(f, NoTree, v, b, decide, Conj(value, guard), h, e);
  }

  /** A sound and complete solver refutes a condition that is false under everything that satisfies
      the path predicate. */
  lemma CompleteAnswer(f: Func, v: nat, b: nat, decide: (set<Term>, Term) -> SMTStatus)
    requires CompleteDecision(decide) && b < |f.terms| && Encodable(f, v) && f.values[v].width == 1
    requires Always(f, NoTree, v, b, 0)
    ensures Answer(f, decide, v, b) == UNSAT
  {
    hide Enc, Guard, Asserted, Always;
    ConstantIsRefuted(f, NoTree, v, b, 0);
  }

  lemma UnsatIsHarmless(f: Func, v: nat, b: nat, decide: (set<Term>, Term) -> SMTStatus)
    requires SoundDecision(decide) && b < |f.terms|
    requires Encodable(f, v) && f.values[v].width == 1 && f.Available(v, b)
    requires Answer(f, decide, v, b) == UNSAT
    ensures Harmless(f, v, b)
  {
    hide Enc, Guard, Asserted, CoveredRun, Shaped, f.Available;
    forall run: seq<State> | Arrives(f, NoTree, run, b)
      ensures Lookup(run[|run| - 1].env, v) == 0
    {
      var e := run[|run| - 1].env;
      FormulasAtEnd(f, NoTree, v, b, run);
      var value, guard := Enc(f, v), Guard(f, NoTree, b);
      ShapedPair(f, Conj(value, guard), value, guard, b);
      HoldsConnectives(value, guard, e);
      UnsatMeansFalse(f, NoTree, v, b, decide, Conj(value, guard), b, e);
    }
  }

  /** A call of int.sat: its condition, and whether it has a location and a bug name. */
  datatype Trap = Trap(cond: nat, block: nat, located: bool, described: bool)

  ghost predicate ValidTrap(f: Func, t: Trap) {
    t.block < |f.terms| && Encodable(f, t.cond) && f.values[t.cond].width == 1 && f.Available(t.cond, t.block)
  }

  ghost function TrapAnswer(f: Func, decide: (set<Term>, Term) -> SMTStatus, t: Trap): SMTStatus
    requires ValidTrap(f, t)
  {
    Answer(f, decide, t.cond, t.block)
  }

  /** Whether a call asks for a report: it has a location and a bug name, and its condition is not a
      constant and is satisfiable. */
  ghost predicate Buggy(f: Func, decide: (set<Term>, Term) -> SMTStatus, t: Trap)
    requires ValidTrap(f, t)
  {
    t.located && t.described && !f.values[t.cond].def.ConstInt? && TrapAnswer(f, decide, t) == SAT
  }

  /** What has been reported of the first n calls: of those that ask for a report, the first one for
      every condition. */
  ghost predicate ReportedOf(f: Func, decide: (set<Term>, Term) -> SMTStatus, traps: seq<Trap>, n: nat,
                             bugs: set<nat>, reports: seq<nat>)
    requires n <= |traps| && forall k :: 0 <= k < |traps| ==> ValidTrap(f, traps[k])
  {
    && (forall v :: v in bugs ==> exists k :: k in reports && k < n && traps[k].cond == v)
    && (forall i :: 0 <= i < |reports| ==>
          reports[i] < n && Buggy(f, decide, traps[reports[i]]) && traps[reports[i]].cond in bugs)
    && (forall i, j :: 0 <= i < j < |reports| ==>
          reports[i] < reports[j] && traps[reports[i]].cond != traps[reports[j]].cond)
    && (forall k :: 0 <= k < n && Buggy(f, decide, traps[k]) ==> traps[k].cond in bugs)
    && (forall i, k :: 0 <= i < |reports| && 0 <= k < reports[i] && Buggy(f, decide, traps[k]) ==>
          traps[k].cond != traps[reports[i]].cond)
  }

  lemma ReportStep(f: Func, decide: (set<Term>, Term) -> SMTStatus, traps: seq<Trap>, n: nat,
                   bugs: set<nat>, reports: seq<nat>)
    requires n < |traps| && forall k :: 0 <= k < |traps| ==> ValidTrap(f, traps[k])
    requires ReportedOf(f, decide, traps, n, bugs, reports)
    ensures if Buggy(f, decide, traps[n]) && traps[n].cond !in bugs
            then ReportedOf(f, decide, traps, n + 1, bugs + {traps[n].cond}, reports + [n])
            else ReportedOf(f, decide, traps, n + 1, bugs, reports)
  {
    hide Buggy, ValidTrap;
    assert forall k :: k in reports ==> k in reports + [n];
    assert n in reports + [n];
  }

  class IntSat {
    const f: Func
    const decide: (set<Term>, Term) -> SMTStatus
    var ReportedBugs: set<nat>
    /** The calls reported, in order. */
    var reports: seq<nat>

    constructor (f: Func, decide: (set<Term>, Term) -> SMTStatus)
      ensures this.f == f && this.decide == decide && ReportedBugs == {} && reports == []
    {
      this.f, this.decide, ReportedBugs, reports := f, decide, {}, [];
    }

    ghost predicate ValidTraps(traps: seq<Trap>) {
      SoundDecision(decide) && forall k :: 0 <= k < |traps| ==> ValidTrap(f, traps[k])
    }

    ghost predicate Reported(traps: seq<Trap>, n: nat)
      requires n <= |traps| && ValidTraps(traps)
      reads this
    {
      ReportedOf(f, decide, traps, n, ReportedBugs, reports)
    }

    method Check(traps: seq<Trap>, k: nat)
      requires k < |traps| && ValidTraps(traps) && Reported(traps, k)
      modifies `ReportedBugs, `reports
      ensures Reported(traps, k + 1)
      ensures var report := Buggy(f, decide, traps[k]) && traps[k].cond !in old(ReportedBugs);
              && reports == old(reports) + (if report then [k] else [])
              && ReportedBugs == old(ReportedBugs) + (if report then {traps[k].cond} else {})
    {
      hide Answer, Harmless, SoundDecision, Enc, Guard, f.Available, ReportedOf;
      var t := traps[k];
      ReportStep(f, decide, traps, k, ReportedBugs, reports);
      if f.values[t.cond].def.ConstInt? { return; }
      if t.cond in ReportedBugs { return; }
      if !t.located || !t.described { return; }
      var status := QueryBug(f, t.cond, t.block, decide);
      if status == SAT {
        ReportedBugs := ReportedBugs + {t.cond};
        reports := reports + [k];
      }
    }

    /** Every satisfiable condition of a call that is looked at is reported, at its first such call
        and never again; and a condition the solver refutes is harmless. */
    method RunOnFunction(traps: seq<Trap>)
      requires ValidTraps(traps)
      modifies `ReportedBugs, `reports
      ensures Reported(traps, |traps|)
      ensures forall j :: 0 <= j < |reports| ==> reports[j] < |traps| && Buggy(f, decide, traps[reports[j]])
      ensures forall k :: 0 <= k < |traps| && Buggy(f, decide, traps[k]) ==>
                exists j :: 0 <= j < |reports| && reports[j] <= k && traps[reports[j]].cond == traps[k].cond
      ensures forall k :: 0 <= k < |traps| && TrapAnswer(f, decide, traps[k]) == UNSAT ==>
                Harmless(f, traps[k].cond, traps[k].block)
    {
      hide Harmless, SoundDecision, Enc, Guard, f.Available;
      ReportedBugs, reports := {}, [];
      var k := 0;
      while k < |traps|
        invariant 0 <= k <= |traps| && Reported(traps, k)
      {
        Check(traps, k);
        k := k + 1;
      }
      forall k | 0 <= k < |traps| && TrapAnswer(f, decide, traps[k]) == UNSAT
        ensures Harmless(f, traps[k].cond, traps[k].block)
      {
        UnsatIsHarmless(f, traps[k].cond, traps[k].block, decide);
      }
    }
  }
}
