/** IntRewrite: where the int.sat calls go that ask whether an operation can go wrong. */
module IntRewrites {
  import opened BitVec
  import opened FiniteSets
  import opened SSA
  import opened Solver
  import opened Terms

  /** The users of each instruction, which instructions are observable (loop-exiting branches and
      what is unsafe to execute speculatively), and the block of each. */
  datatype UseGraph = UseGraph(users: seq<seq<nat>>, observable: seq<bool>, block: seq<nat>)
  {
    predicate Valid(f: Func) {
      && |observable| == |block| == |users|
      && (forall v, k :: 0 <= v < |users| && 0 <= k < |users[v]| ==> users[v][k] < |users|)
      && (forall v :: 0 <= v < |block| ==> block[v] < |f.terms|)
    }
  }

  datatype Point = Before(inst: nat) | AtTerminator(block: nat)

  /** A call int.sat(overflow bit of inst), of the signed or the unsigned intrinsic. */
  datatype Sat = Sat(inst: nat, signed: bool, at: Point)

  // ----- Which users see the result

  predicate Uses(g: UseGraph, v: nat, u: nat) {
    v < |g.users| && u in g.users[v]
  }

  /** A user that passes the result on: it is not observable, and is itself used. */
  predicate Carries(g: UseGraph, u: nat) {
    u < |g.observable| && !g.observable[u] && u < |g.users| && g.users[u] != []
  }

  predicate Trail(g: UseGraph, i: nat, path: seq<nat>, v: nat) {
    && |path| > 0 && path[0] == i && path[|path| - 1] == v
    && forall k :: 0 < k < |path| ==> Uses(g, path[k - 1], path[k]) && Carries(g, path[k])
  }

  ghost predicate Reaches(g: UseGraph, i: nat, v: nat) {
    exists path :: Trail(g, i, path, v)
  }

  /** u is an observable user of i, or of something computed from i by users that carry it. */
  ghost predicate Observes(g: UseGraph, i: nat, u: nat) {
    u < |g.observable| && g.observable[u] && exists v :: Reaches(g, i, v) && Uses(g, v, u)
  }

  /** A check at the end of u's block would not do: that is where i is computed, or i need not have
      been computed there. */
  ghost predicate TooEarly(f: Func, g: UseGraph, i: nat, u: nat) {
    i < |g.block| && u < |g.block| && (g.block[u] == g.block[i] || !f.Dominates(g.block[i], g.block[u]))
  }

  ghost predicate Eager(f: Func, g: UseGraph, i: nat) {
    exists u :: Observes(g, i, u) && TooEarly(f, g, i, u)
  }

  ghost predicate ObservedIn(g: UseGraph, i: nat, b: nat) {
    exists u: nat :: Observes(g, i, u) && u < |g.block| && g.block[u] == b
  }

  ghost function Points(f: Func, g: UseGraph, i: nat): set<Point> {
    if Eager(f, g, i) then {Before(i)}
    else set b | 0 <= b < |f.terms| && ObservedIn(g, i, b) :: AtTerminator(b)
  }

  /** The order of the use lists is irrelevant: only who uses what counts. */
  lemma OrderIrrelevant(f: Func, g: UseGraph, h: UseGraph, i: nat)
    requires g.observable == h.observable && g.block == h.block && |g.users| == |h.users|
    requires forall v :: 0 <= v < |g.users| ==> multiset(g.users[v]) == multiset(h.users[v])
    ensures Points(f, g, i) == Points(f, h, i)
  {
    forall v: nat, u: nat ensures Uses(g, v, u) == Uses(h, v, u) && Carries(g, u) == Carries(h, u) {
      if v < |g.users| { assert u in multiset(g.users[v]) <==> u in multiset(h.users[v]); }
      if u < |g.users| {
        assert multiset(g.users[u]) == multiset(h.users[u]);
        assert |g.users[u]| == |multiset(g.users[u])| && |multiset(h.users[u])| == |h.users[u]|;
      }
    }
    forall path: seq<nat>, v: nat ensures Trail(g, i, path, v) == Trail(h, i, path, v) {}
    forall v: nat ensures Reaches(g, i, v) == Reaches(h, i, v) {}
    forall u: nat ensures Observes(g, i, u) == Observes(h, i, u) {}
  }

  /** Deferred checks are where an observer is, strictly below the definition, whose overflow bit is
      available there. */
  lemma DeferredAvailable(f: Func, g: UseGraph, i: nat, b: nat)
    requires g.Valid(f) && i < |g.users| && !Eager(f, g, i) && AtTerminator(b) in Points(f, g, i)
    ensures b != g.block[i] && f.Dominates(g.block[i], b) && ObservedIn(g, i, b)
  {
    hide f.Dominates;
    var u: nat :| Observes(g, i, u) && u < |g.block| && g.block[u] == b;
    assert !TooEarly(f, g, i, u);
  }

  /** On every path of the function into the block of an observer, a check is placed: before the
      operation itself if that is on the path at all, and otherwise at the end of that block, after
      the operation has been executed. */
  lemma EveryObserverIsChecked(f: Func, g: UseGraph, i: nat, u: nat, path: seq<nat>)
    requires g.Valid(f) && i < |g.users| && Observes(g, i, u) && f.Path(path, g.block[u])
    ensures Before(i) in Points(f, g, i)
            || (AtTerminator(g.block[u]) in Points(f, g, i) && g.block[i] in path[..|path| - 1])
  {
    if !Eager(f, g, i) {
      assert !TooEarly(f, g, i, u);
      var k :| 0 <= k < |path| && path[k] == g.block[i];
      assert k < |path| - 1;
      assert path[..|path| - 1][k] == g.block[i];
    }
  }

  /** A chain of uses from i to u: what is between them is computed from the one before, and not
      observable itself. */
  predicate UseChain(g: UseGraph, i: nat, us: seq<nat>, u: nat) {
    && |us| >= 2 && us[0] == i && us[|us| - 1] == u
    && (forall k :: 0 < k < |us| ==> Uses(g, us[k - 1], us[k]))
    && (forall k :: 0 < k < |us| - 1 ==> us[k] < |g.observable| && !g.observable[us[k]])
  }

  /** An observable user at the end of such a chain. */
  ghost predicate SeesResult(g: UseGraph, i: nat, u: nat) {
    u < |g.observable| && g.observable[u] && exists us :: UseChain(g, i, us, u)
  }

  lemma ObserversExactly(g: UseGraph, i: nat, u: nat)
    ensures Observes(g, i, u) <==> SeesResult(g, i, u)
  {
    if Observes(g, i, u) {
      var v :| Reaches(g, i, v) && Uses(g, v, u);
      var path :| Trail(g, i, path, v);
      assert UseChain(g, i, path + [u], u);
    }
    if SeesResult(g, i, u) {
      var us :| UseChain(g, i, us, u);
      var path := us[..|us| - 1];
      forall k | 0 < k < |path| ensures Uses(g, path[k - 1], path[k]) && Carries(g, path[k]) {
        assert Uses(g, us[k + 1 - 1], us[k + 1]);
      }
      var v := path[|path| - 1];
      assert Trail(g, i, path, v) && Uses(g, v, us[|us| - 1]);
    }
  }

  /** Where checks go: before i if some user that sees the result is in its block or in one that it does
      not dominate, and otherwise at the end of exactly the blocks of the users that see it. */
  lemma PointsExactly(f: Func, g: UseGraph, i: nat)
    requires g.Valid(f) && i < |g.users|
    ensures Before(i) in Points(f, g, i) <==>
              exists u: nat :: SeesResult(g, i, u) && (g.block[u] == g.block[i] || !f.Dominates(g.block[i], g.block[u]))
    ensures forall b: nat :: AtTerminator(b) in Points(f, g, i) <==>
              Before(i) !in Points(f, g, i) && exists u: nat :: SeesResult(g, i, u) && g.block[u] == b
    ensures forall pt :: pt in Points(f, g, i) ==> pt == Before(i) || pt.AtTerminator?
  {
    hide Observes, SeesResult, f.Dominates;
    forall u: nat ensures Observes(g, i, u) <==> SeesResult(g, i, u) { ObserversExactly(g, i, u); }
    forall u: nat | SeesResult(g, i, u) ensures u < |g.block| && g.block[u] < |f.terms| { SeesWithin(g, i, u); }
    forall b: nat | exists u: nat :: SeesResult(g, i, u) && g.block[u] == b ensures ObservedIn(g, i, b) {}
  }

  lemma SeesWithin(g: UseGraph, i: nat, u: nat)
    requires SeesResult(g, i, u)
    ensures u < |g.observable|
  {}

  lemma ReachesMore(g: UseGraph, i: nat, v: nat, u: nat)
    requires Reaches(g, i, v) && Uses(g, v, u) && Carries(g, u)
    ensures Reaches(g, i, u)
  {
    var path :| Trail(g, i, path, v);
    assert Trail(g, i, path + [u], u);
  }

  /** A set that holds i and the carrying users of its elements holds everything i reaches. */
  lemma {:induction false} ClosedReaches(g: UseGraph, i: nat, s: set<nat>, path: seq<nat>, v: nat)
    requires i in s && Trail(g, i, path, v)
    requires forall x, u :: x in s && Uses(g, x, u) && Carries(g, u) ==> u in s
    ensures v in s
    decreases |path|
  {
    if |path| > 1 {
      var before := path[..|path| - 1];
      assert Trail(g, i, before, before[|before| - 1]);
      ClosedReaches(g, i, s, before, before[|before| - 1]);
      assert Uses(g, before[|before| - 1], v);
    }
  }

  // ----- The worklist

  ghost function SatsAt(i: nat, signed: bool, points: set<Point>): set<Sat> {
    set pt | pt in points :: Sat(i, signed, pt)
  }

  function Terminators(blocks: set<nat>): set<Point> {
    set b | b in blocks :: AtTerminator(b)
  }

  /** Every call inserted for i; the set of blocks is walked in an arbitrary order. */
  ghost predicate Inserted(before: seq<Sat>, after: seq<Sat>, i: nat, signed: bool, points: set<Point>) {
    before <= after && multiset(after[|before|..]) == multiset(SatsAt(i, signed, points))
  }

  ghost predicate FoundOnly(f: Func, g: UseGraph, i: nat, obPoints: set<nat>) {
    forall b :: b in obPoints ==> b < |f.terms| && ObservedIn(g, i, b)
  }

  /** What is known of a user that has been looked at. */
  ghost predicate Seen(f: Func, g: UseGraph, i: nat, u: nat, visited: set<nat>, obPoints: set<nat>)
    requires u < |g.observable| == |g.block|
  {
    if g.observable[u] then g.block[u] in obPoints && !TooEarly(f, g, i, u)
    else Carries(g, u) ==> u in visited
  }

  ghost predicate UsersSeen(f: Func, g: UseGraph, i: nat, v: nat, n: nat, visited: set<nat>, obPoints: set<nat>)
    requires g.Valid(f) && v < |g.users| && n <= |g.users[v]|
  {
    forall k :: 0 <= k < n ==> Seen(f, g, i, g.users[v][k], visited, obPoints)
  }

  predicate Distinct(s: seq<nat>) {
    forall k, l :: 0 <= k < l < |s| ==> s[k] != s[l]
  }

  lemma UsersSeenGrows(f: Func, g: UseGraph, i: nat, v: nat, n: nat, visited: set<nat>, obPoints: set<nat>,
                       visited': set<nat>, obPoints': set<nat>)
    requires g.Valid(f) && v < |g.users| && n <= |g.users[v]| && UsersSeen(f, g, i, v, n, visited, obPoints)
    requires visited <= visited' && obPoints <= obPoints'
    ensures UsersSeen(f, g, i, v, n, visited', obPoints')
  {
    hide TooEarly, Carries;
  }

  ghost predicate Visits(g: UseGraph, i: nat, visited: set<nat>) {
    i in visited && forall v :: v in visited ==> v < |g.users| && Reaches(g, i, v)
  }

  ghost predicate Done(f: Func, g: UseGraph, i: nat, visited: set<nat>, worklist: seq<nat>, obPoints: set<nat>)
    requires g.Valid(f)
  {
    && (forall v :: v in worklist ==> v in visited)
    && forall v :: v in visited && v !in worklist ==>
         v < |g.users| && UsersSeen(f, g, i, v, |g.users[v]|, visited, obPoints)
  }

  /** Once the worklist is empty, exactly the blocks of the observers have been found. */
  lemma AllSeen(f: Func, g: UseGraph, i: nat, visited: set<nat>, obPoints: set<nat>)
    requires g.Valid(f) && i < |g.users| && Visits(g, i, visited) && Done(f, g, i, visited, [], obPoints)
    requires FoundOnly(f, g, i, obPoints)
    ensures !Eager(f, g, i) && Points(f, g, i) == Terminators(obPoints)
  {
    hide TooEarly, Reaches;
    forall x: nat, u: nat | x in visited && Uses(g, x, u) && Carries(g, u) ensures u in visited {
      var k :| 0 <= k < |g.users[x]| && g.users[x][k] == u;
      assert Seen(f, g, i, g.users[x][k], visited, obPoints);
    }
    forall u: nat | Observes(g, i, u) ensures g.block[u] in obPoints && !TooEarly(f, g, i, u) {
      var v: nat :| Reaches(g, i, v) && Uses(g, v, u);
      ReachedVisited(g, i, visited, v);
      var k :| 0 <= k < |g.users[v]| && g.users[v][k] == u;
      assert Seen(f, g, i, g.users[v][k], visited, obPoints);
    }
    assert forall b: nat :: b < |f.terms| && ObservedIn(g, i, b) <==> b in obPoints;
  }

  lemma ReachedVisited(g: UseGraph, i: nat, visited: set<nat>, v: nat)
    requires i in visited && Reaches(g, i, v)
    requires forall x: nat, u: nat :: x in visited && Uses(g, x, u) && Carries(g, u) ==> u in visited
    ensures v in visited
  {
    var path :| Trail(g, i, path, v);
    ClosedReaches(g, i, visited, path, v);
  }

  class IntRewrite {
    const f: Func
    const g: UseGraph
    const dominates: (nat, nat) -> bool
    const wrapOpt: bool
    var sats: seq<Sat>
    var nsw: set<nat>

    constructor (f: Func, g: UseGraph, dominates: (nat, nat) -> bool, wrapOpt: bool, nsw: set<nat>)
      ensures this.f == f && this.g == g && this.dominates == dominates && this.wrapOpt == wrapOpt
      ensures this.nsw == nsw && sats == []
    {
      this.f, this.g, this.dominates, this.wrapOpt, this.nsw := f, g, dominates, wrapOpt, nsw;
      sats := [];
    }

    /** The graph is that of the function, and the dominator tree answers for its blocks. */
    ghost predicate Valid() {
      g.Valid(f) && forall a: nat, b: nat :: b < |f.terms| ==> dominates(a, b) == f.Dominates(a, b)
    }

    /** Look at the users of v; stops at one that forces the check to be made at i itself. */
    method LookAtUsers(i: nat, v: nat, visited: set<nat>, worklist: seq<nat>, obPoints: set<nat>)
      returns (eager: bool, visited': set<nat>, worklist': seq<nat>, obPoints': set<nat>)
      requires Valid() && i < |g.users| && v < |g.users| && v in visited && v !in worklist
      requires Visits(g, i, visited) && FoundOnly(f, g, i, obPoints)
      requires Distinct(worklist) && forall x :: x in worklist ==> x in visited
      ensures eager ==> Eager(f, g, i)
      ensures !eager ==>
                && visited <= visited' && obPoints <= obPoints'
                && Visits(g, i, visited') && FoundOnly(f, g, i, obPoints')
                && UsersSeen(f, g, i, v, |g.users[v]|, visited', obPoints')
                && (forall x :: x in worklist' <==> x in worklist || (x in visited' && x !in visited))
                && Distinct(worklist') && (worklist' == worklist || visited < visited')
    {
      hide f.Dominates, Reaches;
      eager, visited', worklist', obPoints' := false, visited, worklist, obPoints;
      var k := 0;
      while k < |g.users[v]|
        invariant 0 <= k <= |g.users[v]|
        invariant visited <= visited' && obPoints <= obPoints'
        invariant Visits(g, i, visited') && FoundOnly(f, g, i, obPoints')
        invariant UsersSeen(f, g, i, v, k, visited', obPoints')
        invariant forall x :: x in worklist' <==> x in worklist || (x in visited' && x !in visited)
        invariant Distinct(worklist') && (worklist' == worklist || visited < visited')
      {
        var u := g.users[v][k];
        assert Uses(g, v, u);
        ghost var seen, points := visited', obPoints';
        if g.observable[u] {
          assert Observes(g, i, u);
          if g.block[u] == g.block[i] || !dominates(g.block[i], g.block[u]) {
            assert TooEarly(f, g, i, u);
            return true, visited', worklist', obPoints';
          }
          obPoints' := obPoints' + {g.block[u]};
        } else if g.users[u] != [] && u !in visited' {
          ReachesMore(g, i, v, u);
          visited' := visited' + {u};
          worklist' := worklist' + [u];
        }
        UsersSeenGrows(f, g, i, v, k, seen, points, visited', obPoints');
        k := k + 1;
      }
    }

    /** The deferred search: whether the check has to be made at i, and if not, in which blocks. */
    method Search(i: nat) returns (eager: bool, obPoints: set<nat>)
      requires Valid() && i < |g.users|
      ensures eager == Eager(f, g, i)
      ensures !eager ==> Points(f, g, i) == Terminators(obPoints)
    {
      hide Reaches, Eager, UsersSeen, Observes, f.Dominates;
      eager, obPoints := false, {};
      var worklist, visited := [i], {i};
      StartReached(g, i);
      while worklist != []
        invariant Visits(g, i, visited) && FoundOnly(f, g, i, obPoints)
        invariant Done(f, g, i, visited, worklist, obPoints)
        invariant Distinct(worklist)
        decreases |Numbers(|g.users|)| - |visited|, |worklist|
      {
        var v := worklist[|worklist| - 1];
        ghost var before, seen, points := worklist, visited, obPoints;
        worklist := worklist[..|worklist| - 1];
        assert v in before && before == worklist + [v] && v !in worklist;
        assert forall x :: x in worklist ==> x in before;
        eager, visited, worklist, obPoints := LookAtUsers(i, v, visited, worklist, obPoints);
        if eager { return; }
        forall x | x in visited && x !in worklist
          ensures UsersSeen(f, g, i, x, |g.users[x]|, visited, obPoints)
        {
          if x != v { UsersSeenGrows(f, g, i, x, |g.users[x]|, seen, points, visited, obPoints); }
        }
        CardinalityBelow(seen, visited);
        CardinalityBelow(visited, Numbers(|g.users|));
      }
      AllSeen(f, g, i, visited, obPoints);
    }

    /** One check at the end of every block found, in an arbitrary order. */
    method InsertDeferred(i: nat, signed: bool, obPoints: set<nat>)
      modifies `sats
      ensures Inserted(old(sats), sats, i, signed, Terminators(obPoints))
    {
      var before, rest := sats, obPoints;
      while rest != {}
        invariant rest <= obPoints && before <= sats
        invariant multiset(sats[|before|..]) == multiset(SatsAt(i, signed, Terminators(obPoints - rest)))
        decreases |rest|
      {
        var b :| b in rest;
        ghost var done := obPoints - rest;
        rest := rest - {b};
        OneMore(i, signed, done, b);
        assert obPoints - rest == done + {b};
        var sat := Sat(i, signed, AtTerminator(b));
        assert (sats + [sat])[|before|..] == sats[|before|..] + [sat];
        sats := sats + [sat];
      }
      assert obPoints - rest == obPoints;
    }

    /** The signed intrinsic is used if and only if the operation carries the no-signed-wrap flag;
        its check is eager unless signed integers wrap, and then the flag is dropped. Pointer
        subtractions are skipped. All other checks are where the users of the result demand. */
    method InsertOverflowCheck(i: nat, fromPointer: bool) returns (changed: bool)
      requires Valid() && i < |g.users|
      modifies this
      ensures changed == !fromPointer
      ensures nsw == if changed && wrapOpt then old(nsw) - {i} else old(nsw)
      ensures !changed ==> sats == old(sats)
      ensures changed && i in old(nsw) && !wrapOpt ==> sats == old(sats) + [Sat(i, true, Before(i))]
      ensures changed && (i !in old(nsw) || wrapOpt) ==> Inserted(old(sats), sats, i, i in old(nsw), Points(f, g, i))
    {
      hide f.Dominates, Eager;
      if fromPointer { return false; }
      var hasNSW := i in nsw;
      if hasNSW {
        if !wrapOpt {
          sats := sats + [Sat(i, true, Before(i))];
          return true;
        }
        nsw := nsw - {i};
      }
      assert nsw == if wrapOpt then old(nsw) - {i} else old(nsw);
      var eager, obPoints := Search(i);
      if eager {
        OnlyBefore(i, hasNSW);
        sats := sats + [Sat(i, hasNSW, Before(i))];
      } else {
        InsertDeferred(i, hasNSW, obPoints);
      }
      return true;
    }
  }

  lemma OneMore(i: nat, signed: bool, done: set<nat>, b: nat)
    requires b !in done
    ensures multiset(SatsAt(i, signed, Terminators(done + {b})))
         == multiset(SatsAt(i, signed, Terminators(done))) + multiset{Sat(i, signed, AtTerminator(b))}
  {
    assert Terminators(done + {b}) == Terminators(done) + {AtTerminator(b)} && AtTerminator(b) !in Terminators(done);
    assert SatsAt(i, signed, Terminators(done) + {AtTerminator(b)})
        == SatsAt(i, signed, Terminators(done)) + {Sat(i, signed, AtTerminator(b))};
  }

  lemma OnlyBefore(i: nat, signed: bool)
    ensures multiset(SatsAt(i, signed, {Before(i)})) == multiset{Sat(i, signed, Before(i))}
  {
    assert SatsAt(i, signed, {Before(i)}) == {Sat(i, signed, Before(i))};
  }

  lemma StartReached(g: UseGraph, i: nat)
    ensures Reaches(g, i, i)
  {
    assert Trail(g, i, [i], i);
  }

  // ----- Division, shift and array checks

  /** divisor == 0, or for signed division also SMIN / -1. */
  function DivCheck(isSigned: bool, l: Term, r: Term): Term {
    var n := Width(r);
    var isNull := Cmp(CmpOp.Eq, r, Const(n, 0));
    if !isSigned then isNull
    else Disj(isNull, Conj(Cmp(CmpOp.Eq, l, Const(n, HalfRange(n))), Cmp(CmpOp.Eq, r, Const(n, UMax(n)))))
  }

  /** The bit pattern of the smallest signed number. */
  function HalfRange(n: nat): nat {
    if n == 0 then 0 else Pow2(n - 1)
  }

  /** The division is undefined, or its quotient is not representable. */
  predicate DivGoesWrong(isSigned: bool, n: nat, x: nat, y: nat)
    requires n >= 1
  {
    y == 0 || (isSigned && Signed(n, y) != 0 &&
               !(SMin(n) <= TruncDiv(Signed(n, x), Signed(n, y)) <= SMax(n)))
  }

  /** A quotient is at most as large as the dividend, and only -1 keeps it as large. */
  lemma QuotientFits(a: int, b: int, m: int)
    requires b != 0 && m >= 0 && -m - 1 <= a <= m
    ensures -m - 1 <= TruncDiv(a, b) <= m <==> !(a == -m - 1 && b == -1)
  {
    var x: nat := if a >= 0 then a else -a;
    var d: nat := if b >= 0 then b else -b;
    var q := x / d;
    assert TruncDiv(a, b) == if (a >= 0) == (b >= 0) then q else -q by {
      if b < 0 { NegativeDivisor(x, d); }
    }
    DivLe(x, d);
    if d >= 2 {
      HalfBound(x, d);
    } else {
      DivModUnique(x, 1, x, 0);
    }
  }

  /** The check is satisfiable exactly when the division can go wrong. */
  lemma DivCheckExact(isSigned: bool, l: Term, r: Term, e: Env)
    requires Width(l) == Width(r) >= 1 && Eval(l, e) < Pow2(Width(l)) && Eval(r, e) < Pow2(Width(r))
    ensures Holds(DivCheck(isSigned, l, r), e) <==> DivGoesWrong(isSigned, Width(l), Eval(l, e), Eval(r, e))
  {
    hide Pow2, TruncDiv;
    var n, x, y := Width(l), Eval(l, e), Eval(r, e);
    var zero, min, minusOne :=
      Cmp(CmpOp.Eq, r, Const(n, 0)), Cmp(CmpOp.Eq, l, Const(n, HalfRange(n))), Cmp(CmpOp.Eq, r, Const(n, UMax(n)));
    HoldsConnectives(min, minusOne, e);
    HoldsConnectives(zero, Conj(min, minusOne), e);
    if isSigned && y != 0 {
      SignedRange(n, x);
      HalfOfPow2(n);
      QuotientFits(Signed(n, x), Signed(n, y), SMax(n));
    }
  }

  lemma HalfOfPow2(n: nat)
    requires n >= 1
    ensures Pow2(n) == 2 * Pow2(n - 1) && SMin(n) == 0 - Pow2(n - 1) && SMax(n) == Pow2(n - 1) - 1
  {}

  function ShiftCheck(r: Term): Term {
    Cmp(Uge, r, Const(Width(r), Wrap(Width(r), Width(r))))
  }

  /** The width fits its own type, so the check is for exactly the oversized amounts; where it does
      not fire, the shift that the solver is given is the shift, but for the sign at odd widths. */
  lemma ShiftCheckExact(op: BvOp, l: Term, r: Term, e: Env)
    requires IsShift(op) && Width(l) == Width(r) >= 2
    requires Eval(l, e) < Pow2(Width(l)) && Eval(r, e) < Pow2(Width(r))
    ensures Holds(ShiftCheck(r), e) <==> Eval(r, e) >= Width(l)
    ensures !Holds(ShiftCheck(r), e) && (op == Sra ==> IsPow2Width(Width(l))) ==>
              Eval(ShiftTerm(op, l, r), e) == EvalBin(op, Width(l), Eval(l, e), Eval(r, e))
  {
    hide Pow2;
    Pow2Exceeds(Width(r));
    WrapId(Width(r), Width(r));
    assert Eval(Const(Width(r), Width(r)), e) == Width(r);
    if Eval(r, e) < Width(l) { ShiftInRange(op, l, r, e); }
  }

  datatype Level = Array(size: nat, idx: Term) | NotArray

  const INT_MAX: nat := 0x7fff_ffff

  /** Arrays of at most one element stand for arrays of unknown size. */
  function Bound(size: nat): nat {
    if size <= 1 then INT_MAX else size
  }

  /** The constant is of the index's type. */
  function LevelCheck(size: nat, idx: Term): Term {
    Cmp(Ugt, idx, Const(Width(idx), Wrap(Width(idx), Bound(size))))
  }

  predicate OutOfBounds(n: nat, size: nat, x: nat) {
    Signed(n, x) < 0 || Signed(n, x) > Bound(size)
  }

  /** The check tells the indices outside of the array exactly, unless the bound does not fit the
      index's type as a signed number; then it still does for the indices that the cut-off bound
      and the sign agree on. */
  lemma LevelCheckExact(size: nat, idx: Term, e: Env)
    requires Width(idx) >= 1 && Eval(idx, e) < Pow2(Width(idx))
    ensures var n := Width(idx); var x := Eval(idx, e);
            (Holds(LevelCheck(size, idx), e) <==> OutOfBounds(n, size, x)) <==>
            2 * Bound(size) < Pow2(n) || (2 * x < Pow2(n) <==> x <= Wrap(n, Bound(size)))
  {
    hide Pow2, Wrap;
    var n, bound := Width(idx), Bound(size);
    assert Eval(Const(n, Wrap(n, bound)), e) == Wrap(n, bound);
    if 2 * bound < Pow2(n) { WrapId(n, bound); }
  }

  /** The bound: an index is outside of an array of two or more elements if it is negative or above their
      number; and of a shorter one, which stands for one of unknown size, if negative or above the largest
      32-bit integer. */
  lemma BoundMeaning(n: nat, size: nat, x: nat)
    ensures size >= 2 ==> (OutOfBounds(n, size, x) <==> Signed(n, x) < 0 || Signed(n, x) > size)
    ensures size < 2 ==> (OutOfBounds(n, size, x) <==> Signed(n, x) < 0 || Signed(n, x) > 2147483647)
    ensures size >= 2 ==> LevelCheck(size, Var(n, 0)) == Cmp(Ugt, Var(n, 0), Const(n, Wrap(n, size)))
    ensures size < 2 ==> LevelCheck(size, Var(n, 0)) == Cmp(Ugt, Var(n, 0), Const(n, Wrap(n, 2147483647)))
  {}

  /** With an index of 8 bits, the bound of an array of unknown size is cut off to 255, so that the
      negative index -56 passes; and that of an array of 300 elements to 44, so that the check fires
      on the index 100. */
  lemma CutOffBoundExamples()
    ensures !Holds(LevelCheck(0, Var(8, 0)), [200]) && OutOfBounds(8, 0, 200)
    ensures Holds(LevelCheck(300, Var(8, 0)), [100]) && !OutOfBounds(8, 300, 100)
  {
    assert Pow2(4) == 16 && Pow2(8) == 256;
    LevelCheckExact(0, Var(8, 0), [200]);
    LevelCheckExact(300, Var(8, 0), [100]);
  }

  /** The check of one of the first k levels holds. */
  predicate Fires(levels: seq<Level>, k: nat, e: Env)
    requires k <= |levels|
  {
    k > 0 && (Fires(levels, k - 1, e)
              || (levels[k - 1].Array? && Holds(LevelCheck(levels[k - 1].size, levels[k - 1].idx), e)))
  }

  /** The condition for a getelementptr, if there is an array level to check at all. */
  method InsertArrayCheck(levels: seq<Level>) returns (found: bool, v: Term)
    ensures found <==> exists j :: 0 <= j < |levels| && levels[j].Array?
    ensures found ==> forall e: Env :: Holds(v, e) <==> Fires(levels, |levels|, e)
    ensures found ==> forall e: Env :: Holds(v, e) <==>
              exists j :: 0 <= j < |levels| && levels[j].Array? && Holds(LevelCheck(levels[j].size, levels[j].idx), e)
  {
    hide Pow2, Wrap;
    found, v := false, False;
    var k := 0;
    while k < |levels|
      invariant 0 <= k <= |levels|
      invariant found <==> exists j :: 0 <= j < k && levels[j].Array?
      invariant Width(v) == 1 && forall e: Env :: Eval(v, e) < 2
      invariant forall e: Env :: Fires(levels, k, e) <==> found && Holds(v, e)
    {
      if levels[k].Array? {
        var check := LevelCheck(levels[k].size, levels[k].idx);
        forall e: Env
          ensures Eval(Disj(v, check), e) < 2 && (Holds(Disj(v, check), e) <==> Holds(v, e) || Holds(check, e))
        {
          HoldsConnectives(v, check, e);
        }
        v := if found then Disj(v, check) else check;
        found := true;
      }
      k := k + 1;
    }
    forall e: Env { FiresAny(levels, |levels|, e); }
  }

  lemma {:induction false} FiresAny(levels: seq<Level>, k: nat, e: Env)
    requires k <= |levels|
    ensures Fires(levels, k, e) <==>
              exists j :: 0 <= j < k && levels[j].Array? && Holds(LevelCheck(levels[j].size, levels[j].idx), e)
  {
    if k > 0 { FiresAny(levels, k - 1, e); }
  }
}
