/** Fixed-width integers of any width n, as naturals below 2^n.  Both the instructions of a
    program (LLVM's APInt) and the solver's bit-vector terms take their meaning from here. */
module BitVec {

  function Pow2(n: nat): (r: nat)
    ensures r >= 1
  {
    if n == 0 then 1 else 2 * Pow2(n - 1)
  }

  lemma {:induction false} Pow2Add(a: nat, b: nat)
    ensures Pow2(a + b) == Pow2(a) * Pow2(b)
  {
    if a != 0 {
      Pow2Add(a - 1, b);
      assert Pow2(a + b) == 2 * Pow2(a - 1 + b);
    }
  }

  lemma {:induction false} Pow2Mono(a: nat, b: nat)
    requires a <= b
    ensures Pow2(a) <= Pow2(b)
    decreases b
  {
    if a < b {
      Pow2Mono(a, b - 1);
    }
  }

  lemma {:induction false} Pow2Exceeds(n: nat)
    ensures n < Pow2(n)
  {
    if n != 0 {
      Pow2Exceeds(n - 1);
    }
  }

  /** The n-bit representation of an integer. */
  function Wrap(n: nat, x: int): (r: nat)
    ensures r < Pow2(n)
  {
    x % Pow2(n)
  }

  /** The two's-complement reading of an n-bit value. */
  function Signed(n: nat, x: nat): int {
    if 2 * x < Pow2(n) then x else x - Pow2(n)
  }

  function SMax(n: nat): int
    requires n >= 1
  {
    Pow2(n - 1) - 1
  }

  function SMin(n: nat): int
    requires n >= 1
  {
    0 - Pow2(n - 1)
  }

  function UMax(n: nat): nat {
    Pow2(n) - 1
  }

  /** Division and remainder that round toward zero, as LLVM and the solver define them. */
  function TruncDiv(a: int, b: int): int
    requires b != 0
  {
    if a >= 0 then a / b else -((-a) / b)
  }

  function TruncRem(a: int, b: int): int
    requires b != 0
  {
    a - b * TruncDiv(a, b)
  }

  lemma WrapUnique(n: nat, x: int, r: nat, k: int)
    requires x == r + k * Pow2(n)
    requires r < Pow2(n)
    ensures Wrap(n, x) == r
  {
    DivModUnique(x, Pow2(n), k, r);
  }

  lemma DivModUnique(x: int, d: nat, q: int, r: nat)
    requires d >= 1 && r < d && x == q * d + r
    ensures x / d == q && x % d == r
  {
    var q', r' := x / d, x % d;
    assert (q - q') * d == r' - r;
    if q > q' {
      MulLe(1, q - q', d);
      assert false;
    }
    if q < q' {
      MulLe(q - q', -1, d);
      assert false;
    }
  }

  lemma MulLe(a: int, b: int, d: nat)
    requires a <= b
    ensures a * d <= b * d
  {
  }

  lemma WrapId(n: nat, x: nat)
    requires x < Pow2(n)
    ensures Wrap(n, x) == x
  {
    WrapUnique(n, x, x, 0);
  }

  lemma WrapAdd(n: nat, x: int, y: int)
    ensures Wrap(n, Wrap(n, x) + y) == Wrap(n, x + y)
  {
    var d := Pow2(n);
    var s := Wrap(n, x) + y;
    WrapUnique(n, x + y, Wrap(n, s), x / d + s / d);
  }

  lemma WrapMul(n: nat, x: int, y: int)
    ensures Wrap(n, Wrap(n, x) * y) == Wrap(n, x * y)
  {
    var d := Pow2(n);
    var s := Wrap(n, x) * y;
    calc {
      x * y;
      (x % d + x / d * d) * y;
      x % d * y + x / d * d * y;
      s + x / d * y * d;
      Wrap(n, s) + s / d * d + x / d * y * d;
      Wrap(n, s) + (s / d + x / d * y) * d;
    }
    WrapUnique(n, x * y, Wrap(n, s), s / d + x / d * y);
  }

  lemma SignedRange(n: nat, x: nat)
    requires n >= 1 && x < Pow2(n)
    ensures SMin(n) <= Signed(n, x) <= SMax(n)
    ensures Wrap(n, Signed(n, x)) == x
  {
    WrapUnique(n, Signed(n, x), x, if 2 * x < Pow2(n) then 0 else -1);
  }

  lemma SignedWrap(n: nat, x: int)
    requires n >= 1 && SMin(n) <= x <= SMax(n)
    ensures Signed(n, Wrap(n, x)) == x
  {
    WrapUnique(n, x, if x >= 0 then x else x + Pow2(n), if x >= 0 then 0 else -1);
  }

  /** Reducing to k bits only looks at the low k bits. */
  lemma WrapWrap(k: nat, n: nat, x: int)
    requires k <= n
    ensures Wrap(k, Wrap(n, x)) == Wrap(k, x)
  {
    Pow2Add(k, n - k);
    ModMod(x, Pow2(k), Pow2(n - k));
  }

  lemma ModMod(x: int, a: nat, b: nat)
    requires a >= 1 && b >= 1 && a * b >= 1
    ensures (x % (a * b)) % a == x % a
  {
    var d := a * b;
    var y, q := x % d, x / d;
    var r, p := y % a, y / a;
    assert x == q * d + y;
    assert y == p * a + r;
    assert q * d == (q * b) * a;
    assert (p + q * b) * a == p * a + (q * b) * a;
    DivModUnique(x, a, p + q * b, r);
  }

  lemma ModSum(x: int, y: int, dx: int, dy: int, d: nat)
    requires d >= 1 && x % d == y % d && dx % d == dy % d
    ensures (x + dx) % d == (y + dy) % d
  {
    var k, m := x / d - y / d, dx / d - dy / d;
    assert k * d == x - y by {
      assert (x / d - y / d) * d == x / d * d - y / d * d;
    }
    assert m * d == dx - dy by {
      assert (dx / d - dy / d) * d == dx / d * d - dy / d * d;
    }
    assert (k + m) * d == k * d + m * d;
    ModShift(y + dy, k + m, d);
  }

  /** Adding congruent amounts to congruent sums. */
  lemma WrapSum(p: nat, x: int, y: int, dx: int, dy: int)
    requires Wrap(p, x) == Wrap(p, y) && Wrap(p, dx) == Wrap(p, dy)
    ensures Wrap(p, x + dx) == Wrap(p, y + dy)
  {
    ModSum(x, y, dx, dy, Pow2(p));
  }

  lemma WrapProduct(p: nat, x: int, y: int, x': int, y': int)
    requires Wrap(p, x) == Wrap(p, x') && Wrap(p, y) == Wrap(p, y')
    ensures Wrap(p, x * y) == Wrap(p, x' * y')
  {
    WrapMul(p, x, y);
    WrapMul(p, x', y);
    WrapMul(p, y, x');
    WrapMul(p, y', x');
    assert x' * y == y * x' && x' * y' == y' * x';
  }

  lemma WrapTwice(p: nat, x: int)
    ensures Wrap(p, Wrap(p, x)) == Wrap(p, x)
  {
    WrapId(p, Wrap(p, x));
  }

  /** Sign extension and truncation to p bits both keep the signed value modulo 2^p. */
  lemma ResizeCongruent(w: nat, p: nat, x: nat)
    requires x < Pow2(w)
    ensures p <= w ==> Wrap(p, x) == Wrap(p, Signed(w, x))
  {
    hide Pow2, Wrap;
    if p <= w && Signed(w, x) != x {
      Pow2Add(p, w - p);
      assert x == Signed(w, x) + Pow2(w - p) * Pow2(p);
      WrapShift(p, Signed(w, x), Pow2(w - p));
    }
  }

  // ----- Bitwise operations

  function BitAnd(a: nat, b: nat): (r: nat)
    ensures r <= a && r <= b
  {
    if a == 0 || b == 0 then 0 else 2 * BitAnd(a / 2, b / 2) + (if a % 2 == 1 && b % 2 == 1 then 1 else 0)
  }

  function BitOr(a: nat, b: nat): nat
    decreases a + b
  {
    if a == 0 then b else if b == 0 then a
    else 2 * BitOr(a / 2, b / 2) + (if a % 2 == 1 || b % 2 == 1 then 1 else 0)
  }

  function BitXor(a: nat, b: nat): nat
    decreases a + b
  {
    if a == 0 then b else if b == 0 then a
    else 2 * BitXor(a / 2, b / 2) + (if a % 2 != b % 2 then 1 else 0)
  }

  lemma {:induction false} BitOpsBounded(n: nat, a: nat, b: nat)
    requires a < Pow2(n) && b < Pow2(n)
    ensures BitOr(a, b) < Pow2(n) && BitXor(a, b) < Pow2(n)
    decreases n
  {
    if a != 0 && b != 0 {
      BitOpsBounded(n - 1, a / 2, b / 2);
    }
  }

  /** x > a / c says that x * c exceeds a. */
  lemma QuotientBound(x: int, c: nat, a: int)
    requires c >= 1
    ensures x > a / c <==> x * c > a
  {
    var q, r := a / c, a % c;
    assert a == q * c + r;
    if x > q {
      MulLe(q + 1, x, c);
      assert (q + 1) * c == q * c + c;
    } else {
      MulLe(x, q, c);
    }
  }

  /** Dividing by a negative number negates the quotient. */
  lemma NegativeDivisor(a: int, c: nat)
    requires c >= 1
    ensures a / (0 - c) == -(a / c)
  {
    var q, r := a / (0 - c), a % (0 - c);
    assert a == q * (0 - c) + r;
    assert q * (0 - c) == -q * c;
    DivModUnique(a, c, -q, r);
  }

  lemma HalfBound(x: nat, d: nat)
    requires d >= 2
    ensures 2 * (x / d) <= x
  {
    var q, r := x / d, x % d;
    assert x == q * d + r;
    DivLe(x, d);
    assert q * d == 2 * q + q * (d - 2);
  }

  // ----- Arithmetic and bitwise results

  datatype ArithOp = Add | Sub | Mul | UDiv | SDiv | URem | SRem | And | Or | Xor

  /** The n-bit result of an operation.  A zero divisor is undefined for LLVM; the values given
      here for it are the ones the bit-vector theory fixes. */
  function ArithResult(op: ArithOp, n: nat, a: nat, b: nat): nat {
    match op
    case Add => Wrap(n, a + b)
    case Sub => Wrap(n, a - b)
    case Mul => Wrap(n, a * b)
    case UDiv => if b == 0 then UMax(n) else UnsignedDiv(a, b)
    case SDiv =>
      if Signed(n, b) == 0 then Wrap(n, if Signed(n, a) >= 0 then -1 else 1)
      else Wrap(n, TruncDiv(Signed(n, a), Signed(n, b)))
    case URem => if b == 0 then a else a % b
    case SRem => if Signed(n, b) == 0 then a else Wrap(n, TruncRem(Signed(n, a), Signed(n, b)))
    case And => BitAnd(a, b)
    case Or => BitOr(a, b)
    case Xor => BitXor(a, b)
  }

  function UnsignedDiv(a: nat, b: nat): (q: nat)
    requires b != 0
    ensures q <= a
  {
    DivLe(a, b);
    a / b
  }

  lemma ArithBounded(op: ArithOp, n: nat, a: nat, b: nat)
    requires a < Pow2(n) && b < Pow2(n)
    ensures ArithResult(op, n, a, b) < Pow2(n)
  {
    BitOpsBounded(n, a, b);
  }

  // ----- Comparisons and overflow

  /** The integer comparison predicates, shared by LLVM's icmp and the solver. */
  datatype CmpOp = Eq | Ne | Sge | Sgt | Sle | Slt | Uge | Ugt | Ule | Ult

  predicate CmpHolds(op: CmpOp, n: nat, a: nat, b: nat) {
    match op
    case Eq => a == b
    case Ne => a != b
    case Sge => Signed(n, a) >= Signed(n, b)
    case Sgt => Signed(n, a) > Signed(n, b)
    case Sle => Signed(n, a) <= Signed(n, b)
    case Slt => Signed(n, a) < Signed(n, b)
    case Uge => a >= b
    case Ugt => a > b
    case Ule => a <= b
    case Ult => a < b
  }

  /** The six arithmetic operations with an overflow flag. */
  datatype OvfOp = SAdd | UAdd | SSub | USub | SMul | UMul

  /** The mathematical result, before it is cut down to n bits. */
  function Exact(op: OvfOp, n: nat, a: nat, b: nat): int {
    match op
    case SAdd => Signed(n, a) + Signed(n, b)
    case UAdd => a + b
    case SSub => Signed(n, a) - Signed(n, b)
    case USub => a - b
    case SMul => Signed(n, a) * Signed(n, b)
    case UMul => a * b
  }

  /** The result does not fit in n bits, read as the operation reads its operands. */
  predicate Overflows(op: OvfOp, n: nat, a: nat, b: nat) {
    if op in {SAdd, SSub, SMul} then
      !(0 - Pow2(n) <= 2 * Exact(op, n, a, b) < Pow2(n))
    else
      !(0 <= Exact(op, n, a, b) < Pow2(n))
  }

  function BoolBit(b: bool): nat {
    if b then 1 else 0
  }

  /** Add, sub and mul do not depend on the signedness of the reading. */
  lemma ExactWraps(op: OvfOp, n: nat, a: nat, b: nat)
    ensures Wrap(n, Exact(op, n, a, b)) ==
            match op
            case SAdd => Wrap(n, a + b)
            case UAdd => Wrap(n, a + b)
            case SSub => Wrap(n, a - b)
            case USub => Wrap(n, a - b)
            case SMul => Wrap(n, a * b)
            case UMul => Wrap(n, a * b)
  {
    hide Pow2, Wrap;
    var ka, kb := if 2 * a < Pow2(n) then 0 else -1, if 2 * b < Pow2(n) then 0 else -1;
    if op == SAdd {
      WrapShift(n, a + b, ka + kb);
    } else if op == SSub {
      WrapShift(n, a - b, ka - kb);
    } else if op == SMul {
      SignedProductWraps(n, a, b);
    }
  }

  lemma SignedProductWraps(n: nat, a: nat, b: nat)
    ensures Wrap(n, Signed(n, a) * Signed(n, b)) == Wrap(n, a * b)
  {
    hide Pow2, Wrap;
    var ka, kb := if 2 * a < Pow2(n) then 0 else -1, if 2 * b < Pow2(n) then 0 else -1;
    ShiftedProduct(a, b, ka, kb, Pow2(n));
    WrapShift(n, a * b, ka * b + kb * a + ka * kb * Pow2(n));
  }

  lemma ShiftedProduct(a: int, b: int, ka: int, kb: int, d: int)
    ensures (a + ka * d) * (b + kb * d) == a * b + (ka * b + kb * a + ka * kb * d) * d
  {
    calc {
      (a + ka * d) * (b + kb * d);
      a * b + a * (kb * d) + (ka * d) * b + (ka * d) * (kb * d);
      { assert a * (kb * d) == (kb * a) * d; assert (ka * d) * b == (ka * b) * d; }
      a * b + (kb * a) * d + (ka * b) * d + (ka * d) * (kb * d);
      { assert (ka * d) * (kb * d) == (ka * kb * d) * d; }
      a * b + (kb * a) * d + (ka * b) * d + (ka * kb * d) * d;
      a * b + (ka * b + kb * a + ka * kb * d) * d;
    }
  }

  lemma WrapShift(n: nat, x: int, k: int)
    ensures Wrap(n, x + k * Pow2(n)) == Wrap(n, x)
  {
    ModShift(x, k, Pow2(n));
  }

  lemma ModShift(x: int, k: int, d: nat)
    requires d >= 1
    ensures (x + k * d) % d == x % d
  {
    var q, r := x / d, x % d;
    assert (q + k) * d == q * d + k * d;
    DivModUnique(x + k * d, d, q + k, r);
  }

  // ----- Shifts

  function ShlBits(n: nat, a: nat, s: nat): (r: nat)
    ensures r < Pow2(n)
  {
    Wrap(n, a * Pow2(s))
  }

  function LshrBits(a: nat, s: nat): (r: nat)
    ensures r <= a
  {
    DivLe(a, Pow2(s));
    a / Pow2(s)
  }

  lemma DivLe(a: nat, d: nat)
    requires d >= 1
    ensures 0 <= a / d <= a
  {
    var q, r := a / d, a % d;
    assert a == q * d + r;
    if q < 0 {
      MulLe(q, -1, d);
      assert false;
    }
    MulGe(q, d);
  }

  lemma MulGe(q: nat, d: nat)
    requires d >= 1
    ensures q <= q * d
  {
    assert q * d == q + q * (d - 1);
  }

  /** Division by a positive power of two rounds down, which is what an arithmetic shift does. */
  function AshrBits(n: nat, a: nat, s: nat): (r: nat)
    ensures r < Pow2(n)
  {
    Wrap(n, Signed(n, a) / Pow2(s))
  }

  /** The least k with n <= 2^k: the bit length of n - 1. */
  function CeilLog2(n: nat): (k: nat)
    requires n >= 1
    ensures n <= Pow2(k)
    ensures n >= 2 ==> k >= 1 && Pow2(k - 1) < n
  {
    if n == 1 then 0 else
      assert (n + 1) / 2 < n;
      1 + CeilLog2((n + 1) / 2)
  }

  predicate IsPow2Width(n: nat)
    requires n >= 1
  {
    Pow2(CeilLog2(n)) == n
  }
}
