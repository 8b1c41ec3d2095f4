/** CmpOverflow: for a value a + x * b passed to a call, report comparisons of x with a constant
    that looks like a mistaken overflow threshold. */
module CmpOverflows {
  import opened BitVec

  /** Scalar evolution expressions, as far as the pass looks into them. */
  datatype SCEV =
    | Const(width: nat, c: nat)
    | Add(width: nat, ops: seq<SCEV>)
    | Mul(width: nat, factors: seq<SCEV>)
    | Unknown(width: nat, id: nat)

  /** The linear value a + x * b. */
  datatype AxB = AxB(a: nat, b: nat)

  datatype Status = NoReport | CMP_AXB_0 | CMP_AXB_1

  predicate IsAxB(s: SCEV) {
    && s.Add? && |s.ops| == 2 && s.ops[0].Const?
    && s.ops[1].Mul? && |s.ops[1].factors| == 2 && s.ops[1].factors[0].Const?
  }

  /** What one argument contributes; a later argument for the same x replaces an earlier one. */
  function CollectOne(m: map<SCEV, AxB>, s: SCEV): map<SCEV, AxB> {
    if IsAxB(s) then m[s.ops[1].factors[1] := AxB(s.ops[0].c, s.ops[1].factors[0].c)] else m
  }

  function CollectAll(args: seq<SCEV>): map<SCEV, AxB> {
    if args == [] then map[] else CollectOne(CollectAll(args[..|args| - 1]), args[|args| - 1])
  }

  /** a is a number of x's width, and b is not zero. */
  predicate ValidMap(m: map<SCEV, AxB>) {
    forall x :: x in m ==> m[x].a < Pow2(x.width) && m[x].b >= 1
  }

  /** checkAxB; both operands have the same width. */
  function CheckAxB(m: map<SCEV, AxB>, l: SCEV, r: SCEV): Status
    requires ValidMap(m)
  {
    var (x, k) := if l.Const? then (r, l) else (l, r);
    if !k.Const? || x !in m then NoReport else Classify(x.width, m[x].a, m[x].b, k.c)
  }

  function Classify(n: nat, a: nat, b: nat, c: nat): Status
    requires a < Pow2(n) && b >= 1
  {
    var c0 := UMax(n) / b;
    if c == (UMax(n) - a) / b then NoReport
    else if c == c0 then CMP_AXB_0
    else if c == Wrap(n, c0 - a) then CMP_AXB_1
    else NoReport
  }

  // ----- What the classification means

  /** (UMAX - a) / b is the exact threshold below which a + x * b does not wrap around. */
  lemma ExactThreshold(n: nat, a: nat, b: nat, x: nat)
    requires a < Pow2(n) && b >= 1
    ensures a + x * b < Pow2(n) <==> x <= (UMax(n) - a) / b
  {
    QuotientBound(x, b, UMax(n) - a);
  }

  /** A constant reported as UMAX / b lies strictly above the threshold, and already makes the
      value wrap around. */
  lemma ForgottenOffset(n: nat, a: nat, b: nat, c: nat)
    requires a < Pow2(n) && b >= 1 && Classify(n, a, b, c) == CMP_AXB_0
    ensures c > (UMax(n) - a) / b && a + c * b >= Pow2(n)
  {
    hide Pow2, Wrap;
    QuotientOrder(UMax(n), a, b);
    ExactThreshold(n, a, b, c);
  }

  lemma QuotientOrder(m: nat, a: nat, b: nat)
    requires a <= m && b >= 1
    ensures (m - a) / b <= m / b
    ensures a <= m / b ==> m / b - a <= (m - a) / b
    ensures (m - a) / b <= m - a
  {
    var q, t := m / b, (m - a) / b;
    QuotientBound(t, b, m - a);
    QuotientBound(t, b, m);
    DivLe(m - a, b);
    if a <= q {
      QuotientBound(q, b, m);
      Distribute(q, a, b);
      MulGe(a, b);
      QuotientBound(q - a, b, m - a);
    }
  }

  lemma Distribute(q: int, a: int, b: int)
    ensures (q - a) * b == q * b - a * b
  {
  }

  /** A constant reported as UMAX / b - a lies strictly below the threshold if a <= UMAX / b, and
      strictly above it, where the value wraps around, if the subtraction itself wraps around. */
  lemma MisplacedOffset(n: nat, a: nat, b: nat, c: nat)
    requires a < Pow2(n) && b >= 1 && Classify(n, a, b, c) == CMP_AXB_1
    ensures a <= UMax(n) / b <==> c < (UMax(n) - a) / b
    ensures a > UMax(n) / b <==> c > (UMax(n) - a) / b
    ensures a > UMax(n) / b ==> a + c * b >= Pow2(n)
  {
    hide Pow2;
    var c0 := UMax(n) / b;
    QuotientOrder(UMax(n), a, b);
    DivLe(UMax(n), b);
    if a <= c0 {
      WrapId(n, c0 - a);
    } else {
      WrapUnique(n, c0 - a, c0 - a + Pow2(n), -1);
      ExactThreshold(n, a, b, c);
    }
  }

  /** 8 bits, 200 + x * 3: 85 - 200 wraps around to 141, which is reported as a misplaced offset, but
      the threshold is 18 and 200 + 141 * 3 has wrapped around. */
  lemma WrappedOffsetExample()
    ensures Classify(8, 200, 3, 141) == CMP_AXB_1
    ensures 141 > (UMax(8) - 200) / 3 == 18 && 200 + 141 * 3 >= Pow2(8)
  {
    assert Pow2(8) == 256;
    assert Wrap(8, 85 - 200) == 141;
  }

  // ----- The pass

  /** Arguments of calls, as scalar evolution gives them: all parts have one width, and no factor is
      zero. Different arguments can have different widths. */
  predicate ValidArgument(s: SCEV) {
    IsAxB(s) ==> s.ops[0].c < Pow2(s.ops[1].factors[1].width) && s.ops[1].factors[0].c >= 1
  }

  lemma {:induction false} CollectedValid(args: seq<SCEV>)
    requires forall i :: 0 <= i < |args| ==> ValidArgument(args[i])
    ensures ValidMap(CollectAll(args))
  {
    if args != [] {
      CollectedValid(args[..|args| - 1]);
      assert ValidArgument(args[|args| - 1]);
    }
  }

  /** Every collected x was passed as a + x * b in some argument. */
  lemma {:induction false} CollectedFrom(args: seq<SCEV>, x: SCEV)
    requires x in CollectAll(args)
    ensures exists i :: 0 <= i < |args| && IsAxB(args[i]) && args[i].ops[1].factors[1] == x
                        && CollectAll(args)[x] == AxB(args[i].ops[0].c, args[i].ops[1].factors[0].c)
  {
    var k := |args| - 1;
    if !(IsAxB(args[k]) && args[k].ops[1].factors[1] == x) {
      CollectedFrom(args[..k], x);
    }
  }

  /** The last argument of the form a + x * b decides about x, and then a constant compared with x, on
      either side, is reported exactly if it is UMAX / b, or that minus a, and not the threshold. */
  lemma ReportsExactly(args: seq<SCEV>, i: nat, w: nat, a: SCEV, b: SCEV, x: SCEV, k: SCEV)
    requires i < |args| && a.Const? && b.Const? && k.Const? && !x.Const?
    requires args[i] == SCEV.Add(w, [a, SCEV.Mul(w, [b, x])])
    requires forall j :: i < j < |args| && IsAxB(args[j]) ==> args[j].ops[1].factors[1] != x
    requires ValidMap(CollectAll(args)) && a.c < Pow2(x.width) && b.c >= 1
    ensures CheckAxB(CollectAll(args), x, k) == CheckAxB(CollectAll(args), k, x)
    ensures ReportedExactly(x.width, a.c, b.c, k.c, CheckAxB(CollectAll(args), x, k))
  {
    hide Pow2, Wrap, UMax, Classify, ReportedExactly, CollectAll;
    CollectedLast(args, i, x);
    ClassifiesExactly(x.width, a.c, b.c, k.c);
  }

  predicate ReportedExactly(n: nat, a: nat, b: nat, c: nat, s: Status)
    requires b >= 1
  {
    var threshold := (UMax(n) - a) / b;
    && (s == CMP_AXB_0 <==> c != threshold && c == UMax(n) / b)
    && (s == CMP_AXB_1 <==> c != threshold && c != UMax(n) / b && c == Wrap(n, UMax(n) / b - a))
  }

  lemma ClassifiesExactly(n: nat, a: nat, b: nat, c: nat)
    requires a < Pow2(n) && b >= 1
    ensures ReportedExactly(n, a, b, c, Classify(n, a, b, c))
  {
    hide Pow2, Wrap, UMax;
  }

  lemma {:induction false} CollectedLast(args: seq<SCEV>, i: nat, x: SCEV)
    requires i < |args| && IsAxB(args[i]) && args[i].ops[1].factors[1] == x
    requires forall j :: i < j < |args| && IsAxB(args[j]) ==> args[j].ops[1].factors[1] != x
    ensures x in CollectAll(args)
    ensures CollectAll(args)[x] == AxB(args[i].ops[0].c, args[i].ops[1].factors[0].c)
  {
    if i < |args| - 1 { CollectedLast(args[..|args| - 1], i, x); }
  }

  /** A comparison of two expressions that are not constant, or of one that was not passed to a call in
      this form, is not reported. */
  lemma NotReported(args: seq<SCEV>, l: SCEV, r: SCEV)
    requires ValidMap(CollectAll(args))
    requires (!l.Const? && !r.Const?)
             || forall i :: 0 <= i < |args| && IsAxB(args[i]) ==>
                  args[i].ops[1].factors[1] != if l.Const? then r else l
    ensures CheckAxB(CollectAll(args), l, r) == NoReport
  {
    hide Classify;
    var x := if l.Const? then r else l;
    if x in CollectAll(args) { CollectedFrom(args, x); }
  }

  /** A report about a comparison of x with c concerns a value a + x * b that was passed to a call:
      c is not its threshold, and lies on the side of it that the report names. */
  lemma ReportMeaning(args: seq<SCEV>, l: SCEV, r: SCEV)
    requires ValidMap(CollectAll(args)) && CheckAxB(CollectAll(args), l, r) != NoReport
    ensures exists i ::
              0 <= i < |args| && IsAxB(args[i]) && Reported(args[i], l, r, CheckAxB(CollectAll(args), l, r))
  {
    hide Pow2, CollectAll, Classify, Judged;
    var (x, k) := if l.Const? then (r, l) else (l, r);
    CollectedFrom(args, x);
    var i :| 0 <= i < |args| && IsAxB(args[i]) && args[i].ops[1].factors[1] == x
             && CollectAll(args)[x] == AxB(args[i].ops[0].c, args[i].ops[1].factors[0].c);
    var AxB(a, b) := CollectAll(args)[x];
    assert a < Pow2(x.width) && b >= 1;
    ClassifiedJudged(x.width, a, b, k.c);
    assert Reported(args[i], l, r, CheckAxB(CollectAll(args), l, r));
  }

  ghost predicate Reported(arg: SCEV, l: SCEV, r: SCEV, s: Status)
    requires IsAxB(arg)
  {
    var a, b := arg.ops[0].c, arg.ops[1].factors[0].c;
    var (x, k) := if l.Const? then (r, l) else (l, r);
    arg.ops[1].factors[1] == x && k.Const? && a < Pow2(x.width) && b >= 1 && Judged(x.width, a, b, k.c, s)
  }

  /** Below the exact threshold for a misplaced offset whose subtraction does not wrap around; above
      it, where a + c * b wraps around, otherwise. */
  predicate Judged(n: nat, a: nat, b: nat, c: nat, s: Status)
    requires b >= 1
  {
    var threshold := (UMax(n) - a) / b;
    if s == CMP_AXB_1 && a <= UMax(n) / b then c < threshold else c > threshold && a + c * b >= Pow2(n)
  }

  lemma ClassifiedJudged(n: nat, a: nat, b: nat, c: nat)
    requires a < Pow2(n) && b >= 1 && Classify(n, a, b, c) != NoReport
    ensures Judged(n, a, b, c, Classify(n, a, b, c))
  {
    hide Pow2;
    if Classify(n, a, b, c) == CMP_AXB_0 { ForgottenOffset(n, a, b, c); } else { MisplacedOffset(n, a, b, c); }
  }

  // ----- All arguments of all calls, in order

  function Flatten(calls: seq<seq<SCEV>>): seq<SCEV> {
    if calls == [] then [] else Flatten(calls[..|calls| - 1]) + calls[|calls| - 1]
  }

  /** The arguments of every call are there, between those of the calls before and after it. */
  lemma {:induction false} FlattenSplit(calls: seq<seq<SCEV>>, i: nat)
    requires i < |calls|
    ensures Flatten(calls) == Flatten(calls[..i]) + calls[i] + Flatten(calls[i + 1..])
  {
    var n := |calls| - 1;
    if i < n {
      FlattenSplit(calls[..n], i);
      assert calls[..n][..i] == calls[..i] && calls[..n][i + 1..] == calls[i + 1..n];
      assert calls[i + 1..][..n - i - 1] == calls[i + 1..n] && calls[i + 1..][n - i - 1] == calls[n];
    }
  }

  class CmpOverflow {
    var AxBs: map<SCEV, AxB>

    method Collect(args: seq<SCEV>, ghost before: seq<SCEV>)
      requires AxBs == CollectAll(before)
      modifies this
      ensures AxBs == CollectAll(before + args)
    {
      var i := 0;
      assert before + args[..0] == before;
      while i < |args|
        invariant 0 <= i <= |args|
        invariant AxBs == CollectAll(before + args[..i])
      {
        ghost var next := before + args[..i + 1];
        assert next[..|next| - 1] == before + args[..i];
        if IsAxB(args[i]) {
          var mul := args[i].ops[1];
          AxBs := AxBs[mul.factors[1] := AxB(args[i].ops[0].c, mul.factors[0].c)];
        }
        i := i + 1;
      }
      assert args[..|args|] == args;
    }

    /** runOnFunction: first all calls, then all comparisons, then forget. */
    method RunOnFunction(calls: seq<seq<SCEV>>, compares: seq<(SCEV, SCEV)>) returns (reports: seq<Status>)
      requires AxBs == map[]
      requires forall i :: 0 <= i < |Flatten(calls)| ==> ValidArgument(Flatten(calls)[i])
      modifies this
      ensures |reports| == |compares| && AxBs == map[]
      ensures ValidMap(CollectAll(Flatten(calls)))
      ensures forall i :: 0 <= i < |compares| ==>
                reports[i] == CheckAxB(CollectAll(Flatten(calls)), compares[i].0, compares[i].1)
    {
      var i := 0;
      assert calls[..0] == [];
      while i < |calls|
        invariant 0 <= i <= |calls|
        invariant AxBs == CollectAll(Flatten(calls[..i]))
      {
        assert calls[..i + 1][..i] == calls[..i];
        Collect(calls[i], Flatten(calls[..i]));
        i := i + 1;
      }
      assert calls[..|calls|] == calls;
      CollectedValid(Flatten(calls));
      reports := [];
      while |reports| < |compares|
        invariant |reports| <= |compares| && AxBs == CollectAll(Flatten(calls))
        invariant forall j :: 0 <= j < |reports| ==>
                    reports[j] == CheckAxB(CollectAll(Flatten(calls)), compares[j].0, compares[j].1)
      {
        var (l, r) := compares[|reports|];
        reports := reports + [CheckAxB(AxBs, l, r)];
      }
      AxBs := map[];
    }
  }
}
