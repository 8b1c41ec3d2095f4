/** Passes that give some values of a function another instruction: when the rewritten function has
    the executions of the original one. */
module Rewriting {
  import opened Terms
  import opened SSA

  /** What the uses of a value read after the rewriting, in place of what it computes. */
  type Replacements = (nat, Env) -> bool

  ghost predicate InitialAfter(f: Func, after: Replacements, s: State) {
    && s.block == 0 && ValidEnv(f, s.env)
    && forall v :: 0 <= v < |f.values| && f.values[v].home <= 0 ==> after(v, s.env)
  }

  ghost predicate StepAfter(f: Func, after: Replacements, s: State, s': State) {
    && f.Edge(s.block, s'.block) && Chooses(f, s.block, s'.block, Lookup(s.env, Condition(f, s.block)))
    && ValidEnv(f, s'.env)
    && forall v :: 0 <= v < |f.values| ==>
         if f.values[v].home == s'.block then
           if f.values[v].def.Phi? then PhiReads(f, v, s, s') else after(v, s'.env)
         else Lookup(s'.env, v) == Lookup(s.env, v)
  }

  /** The executions of the rewritten function. */
  ghost predicate ExecutionAfter(f: Func, after: Replacements, run: seq<State>) {
    && |run| > 0 && InitialAfter(f, after, run[0])
    && forall i :: 0 < i < |run| ==> StepAfter(f, after, run[i - 1], run[i])
  }

  /** v has just been computed in this state: it is defined in the block, or before the entry block. */
  predicate Executed(f: Func, s: State, v: nat) {
    v < |f.values| && (f.values[v].home == s.block || (s.block == 0 && f.values[v].home == GLOBAL))
  }

  /** The values that a replacement relies on: not replaced themselves, and available wherever the
      replaced value is. */
  ghost predicate Supported(f: Func, replaced: set<nat>, support: nat -> set<nat>) {
    forall v: nat, u: nat, b: nat :: v in replaced && u in support(v) && f.Available(v, b) ==>
      u !in replaced && f.Available(u, b)
  }

  /** Other values are computed as before. */
  ghost predicate OthersKept(f: Func, replaced: set<nat>, after: Replacements) {
    forall v: nat, e: Env :: v < |f.values| && v !in replaced ==> (after(v, e) <==> Computes(f, v, e))
  }

  ghost predicate AllCompute(f: Func, us: set<nat>, e: Env) {
    forall u: nat :: u in us ==> u < |f.values| && Computes(f, u, e)
  }

  /** If its support computes, the replacement of v is right in this environment. */
  ghost predicate AgreesAt(f: Func, after: Replacements, us: set<nat>, v: nat, e: Env) {
    v < |f.values| && (AllCompute(f, us, e) && ValidEnv(f, e) ==> (after(v, e) <==> Computes(f, v, e)))
  }

  ghost predicate AgreesAlong(f: Func, replaced: set<nat>, support: nat -> set<nat>, after: Replacements,
                              run: seq<State>) {
    forall i, v :: 0 <= i < |run| && v in replaced && Executed(f, run[i], v) ==>
      AgreesAt(f, after, support(v), v, run[i].env)
  }

  lemma AvailableAtHome(f: Func, v: nat, b: nat)
    requires v < |f.values| && (f.values[v].home == b || f.values[v].home == GLOBAL)
    ensures f.Available(v, b)
  {}

  lemma SameInitial(f: Func, replaced: set<nat>, support: nat -> set<nat>, after: Replacements, s: State)
    requires Supported(f, replaced, support) && OthersKept(f, replaced, after)
    requires forall v :: v in replaced && Executed(f, s, v) ==> AgreesAt(f, after, support(v), v, s.env)
    ensures Initial(f, s) <==> InitialAfter(f, after, s)
  {
    hide f.Dominates, Computes;
    if Initial(f, s) || InitialAfter(f, after, s) {
      forall v: nat | v < |f.values| && f.values[v].home <= 0
        ensures after(v, s.env) <==> Computes(f, v, s.env)
      {
        if v in replaced {
          assert Executed(f, s, v) by { assert f.ValidValue(v); }
          AvailableAtHome(f, v, 0);
          forall u: nat | u in support(v) ensures u < |f.values| && Computes(f, u, s.env) {
            assert f.Available(u, 0);
            AvailableBelow(f, u, 0);
          }
        }
      }
    }
  }

  lemma SameStep(f: Func, replaced: set<nat>, support: nat -> set<nat>, after: Replacements, s: State, s': State)
    requires Supported(f, replaced, support) && OthersKept(f, replaced, after)
    requires Consistent(f, s.block, s.env)
    requires forall v :: v in replaced && Executed(f, s', v) ==> AgreesAt(f, after, support(v), v, s'.env)
    ensures Step(f, s, s') <==> StepAfter(f, after, s, s')
  {
    hide f.Dominates, Computes;
    if Step(f, s, s') || StepAfter(f, after, s, s') {
      forall v: nat | v < |f.values| && f.values[v].home == s'.block && !f.values[v].def.Phi?
        ensures after(v, s'.env) <==> Computes(f, v, s'.env)
      {
        if v in replaced {
          AvailableAtHome(f, v, s'.block);
          forall u: nat | u in support(v) ensures u < |f.values| && Computes(f, u, s'.env) {
            assert f.Available(u, s'.block);
            SupportComputes(f, replaced, after, s, s', u);
          }
        }
      }
    }
  }

  lemma SupportComputes(f: Func, replaced: set<nat>, after: Replacements, s: State, s': State, u: nat)
    requires Step(f, s, s') || StepAfter(f, after, s, s')
    requires OthersKept(f, replaced, after) && Consistent(f, s.block, s.env)
    requires f.Available(u, s'.block) && u !in replaced
    ensures Computes(f, u, s'.env)
  {
    Typing(f, u);
    if f.values[u].home != s'.block {
      StillComputes(f, s, s', u);
    }
  }

  /** The rewritten function has the same executions, where the replacements of what they execute
      are right given what these rely on. */
  lemma {:induction false} SameExecutions(
    f: Func, replaced: set<nat>, support: nat -> set<nat>, after: Replacements, run: seq<State>)
    requires Supported(f, replaced, support) && OthersKept(f, replaced, after)
    requires AgreesAlong(f, replaced, support, after, run)
    ensures Execution(f, run) <==> ExecutionAfter(f, after, run)
    decreases |run|
  {
    hide Supported, OthersKept, AgreesAt, Consistent, Initial, InitialAfter, Step, StepAfter;
    var n := |run|;
    if n > 0 {
      SameInitial(f, replaced, support, after, run[0]);
    }
    if n > 1 {
      var before := run[..n - 1];
      SameExecutions(f, replaced, support, after, before);
      if Execution(f, run) || ExecutionAfter(f, after, run) {
        assert Execution(f, before) || ExecutionAfter(f, after, before) by {
          assert Execution(f, run) ==> forall i :: 0 < i < n - 1 ==> Step(f, before[i - 1], before[i]);
          assert ExecutionAfter(f, after, run) ==>
                   forall i :: 0 < i < n - 1 ==> StepAfter(f, after, before[i - 1], before[i]);
        }
        forall i | 0 < i < n
          ensures Step(f, run[i - 1], run[i]) <==> StepAfter(f, after, run[i - 1], run[i])
        {
          ExecutionConsistent(f, before, i - 1);
          SameStep(f, replaced, support, after, run[i - 1], run[i]);
        }
      }
    }
  }

  /** Where a replaced value is executed, it and what its replacement relies on compute. */
  lemma ExecutedComputes(f: Func, replaced: set<nat>, support: nat -> set<nat>, run: seq<State>, i: nat, v: nat)
    requires Supported(f, replaced, support) && Execution(f, run) && i < |run|
    requires v in replaced && Executed(f, run[i], v)
    ensures ValidEnv(f, run[i].env) && Computes(f, v, run[i].env) && AllCompute(f, support(v), run[i].env)
  {
    hide f.Dominates, ValidEnv, Computes;
    ExecutionConsistent(f, run, i);
    AvailableAtHome(f, v, run[i].block);
    forall u: nat | u in support(v) ensures u < |f.values| && Computes(f, u, run[i].env) {
      assert f.Available(u, run[i].block);
    }
  }

  /** Every replacement that an execution of the rewritten function executes is obeyed by it. */
  lemma ReplacementObeyed(f: Func, after: Replacements, run: seq<State>, i: nat, v: nat)
    requires ExecutionAfter(f, after, run) && i < |run| && Executed(f, run[i], v) && !f.values[v].def.Phi?
    ensures after(v, run[i].env)
  {
    if i > 0 {
      assert StepAfter(f, after, run[i - 1], run[i]);
      EntryNotEntered(f, run[i - 1].block, run[i].block);
    }
  }

  lemma EntryNotEntered(f: Func, p: nat, b: nat)
    requires f.Edge(p, b)
    ensures b != 0
  {
    assert p in f.preds[b];
  }
}
