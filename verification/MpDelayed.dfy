/**
 The delayed big-integer expressions of bigint.h: an operator builds a tree that refers to its
 operands by address, and the tree is evaluated in place when it is assigned, possibly into a
 number that the tree itself refers to. The GMP primitives are taken as functions on integers
 that read all their operands before they write.
 */
module MpDelayed {

  class BigInt {
    var v: int

    constructor (v: int)
      ensures this.v == v
    {
      this.v := v;
    }

    /** x++ : increments now, and stands for the value one less. */
    method PostIncrement() returns (d: Delayed)
      modifies this
      ensures v == old(v) + 1 && Value(d) == old(v)
      ensures Operands(d) == {this}
    {
      v := v + 1;
      d := NumberWord((x, y) => x - y, this, 1);
    }

    /** x-- : decrements now, and stands for the value one more. */
    method PostDecrement() returns (d: Delayed)
      modifies this
      ensures v == old(v) - 1 && Value(d) == old(v)
      ensures Operands(d) == {this}
    {
      v := v - 1;
      d := NumberWord((x, y) => x + y, this, 1);
    }
  }

  // ---------------------------------------------------------------- delayed trees

  /** The specialisations of mpdelayed; Copied holds its left operand by value. */
  datatype Delayed =
    | Unary(f: int -> int, a: BigInt)
    | UnaryTree(f: int -> int, d: Delayed)
    | Numbers(g: (int, int) -> int, a: BigInt, b: BigInt)
    | NumberWord(g: (int, int) -> int, a: BigInt, w: nat)
    | NumberTree(g: (int, int) -> int, a: BigInt, d: Delayed)
    | TreeNumber(g: (int, int) -> int, d: Delayed, b: BigInt)
    | TreeWord(g: (int, int) -> int, d: Delayed, w: nat)
    | Copied(g: (int, int) -> int, c: int, d: Delayed)
    | Ternary(h: (int, int, int) -> int, a: BigInt, b: BigInt, m: BigInt)

  ghost function Operands(d: Delayed): set<BigInt> {
    match d
    case Unary(_, a) => {a}
    case UnaryTree(_, e) => Operands(e)
    case Numbers(_, a, b) => {a, b}
    case NumberWord(_, a, _) => {a}
    case NumberTree(_, a, e) => {a} + Operands(e)
    case TreeNumber(_, e, b) => Operands(e) + {b}
    case TreeWord(_, e, _) => Operands(e)
    case Copied(_, _, e) => Operands(e)
    case Ternary(_, a, b, m) => {a, b, m}
  }

  lemma OperandsExist(d: Delayed)
    ensures forall x <- Operands(d) :: allocated(x)
  {
  }

  /** The value of the tree if its operands were read now. */
  ghost function Value(d: Delayed): int
    reads Operands(d)
  {
    match d
    case Unary(f, a) => f(a.v)
    case UnaryTree(f, e) => f(Value(e))
    case Numbers(g, a, b) => g(a.v, b.v)
    case NumberWord(g, a, w) => g(a.v, w)
    case NumberTree(g, a, e) => g(a.v, Value(e))
    case TreeNumber(g, e, b) => g(Value(e), b.v)
    case TreeWord(g, e, w) => g(Value(e), w)
    case Copied(g, c, e) => g(c, Value(e))
    case Ternary(h, a, b, m) => h(a.v, b.v, m.v)
  }

  /** getres: writes the tree's value to r, which may be an operand, and to nothing else. */
  method GetRes(d: Delayed, r: BigInt)
    modifies r
    ensures r.v == old(Value(d))
    decreases d, 0
  {
    match d
    case Unary(f, a) => r.v := f(a.v);
    case UnaryTree(f, e) =>
      GetRes(e, r);
      r.v := f(r.v);
    case Numbers(g, a, b) => r.v := g(a.v, b.v);
    case NumberWord(g, a, w) => r.v := g(a.v, w);
    case NumberTree(g, a, e) =>
      if r == a {
        var t := Evaluate(e);
        r.v := g(a.v, t.v);
      } else {
        GetRes(e, r);
        r.v := g(a.v, r.v);
      }
    case TreeNumber(g, e, b) =>
      if r == b {
        var t := Evaluate(e);
        r.v := g(t.v, b.v);
      } else {
        GetRes(e, r);
        r.v := g(r.v, b.v);
      }
    case TreeWord(g, e, w) =>
      GetRes(e, r);
      r.v := g(r.v, w);
    case Copied(g, c, e) =>
      GetRes(e, r);
      r.v := g(c, r.v);
    case Ternary(h, a, b, m) => r.v := h(a.v, b.v, m.v);
  }

  /** bigint t = d : a new number with the tree's value */
  method Evaluate(d: Delayed) returns (t: BigInt)
    ensures fresh(t) && t.v == old(Value(d)) && Value(d) == old(Value(d))
    decreases d, 1
  {
    OperandsExist(d);
    t := new BigInt(0);
    GetRes(d, t);
  }

  // ---------------------------------------------------------------- expressions

  /** What the programmer writes. */
  datatype Expr =
    | Number(x: BigInt)
    | Apply1(f: int -> int, e: Expr)
    | Apply2(g: (int, int) -> int, l: Expr, r: Expr)
    | ApplyWord(g: (int, int) -> int, l: Expr, w: nat)
    | Apply3(h: (int, int, int) -> int, a: BigInt, b: BigInt, m: BigInt)

  ghost function Variables(e: Expr): set<BigInt> {
    match e
    case Number(x) => {x}
    case Apply1(_, l) => Variables(l)
    case Apply2(_, l, r) => Variables(l) + Variables(r)
    case ApplyWord(_, l, _) => Variables(l)
    case Apply3(_, a, b, m) => {a, b, m}
  }

  lemma VariablesExist(e: Expr)
    ensures forall x <- Variables(e) :: allocated(x)
  {
  }

  /** The value under ordinary evaluation, with no delay. */
  ghost function Eager(e: Expr): int
    reads Variables(e)
  {
    match e
    case Number(x) => x.v
    case Apply1(f, l) => f(Eager(l))
    case Apply2(g, l, r) => g(Eager(l), Eager(r))
    case ApplyWord(g, l, w) => g(Eager(l), w)
    case Apply3(h, a, b, m) => h(a.v, b.v, m.v)
  }

  /** The overloads of the operators: which tree an expression builds. Only the left of two trees is evaluated at once. */
  method Build(e: Expr) returns (d: Delayed)
    requires !e.Number?
    ensures Operands(d) <= Variables(e) && Value(d) == old(Eager(e)) && Eager(e) == old(Eager(e))
    decreases e, 1
  {
    VariablesExist(e);
    match e
    case Apply1(f, l) =>
      if l.Number? {
        d := Unary(f, l.x);
      } else {
        var dl := Build(l);
        d := UnaryTree(f, dl);
      }
    case Apply2(g, l, r) => d := BuildBinary(e);
    case ApplyWord(g, l, w) =>
      if l.Number? {
        d := NumberWord(g, l.x, w);
      } else {
        var dl := Build(l);
        d := TreeWord(g, dl, w);
      }
    case Apply3(h, a, b, m) => d := Ternary(h, a, b, m);
  }

  method BuildBinary(e: Expr) returns (d: Delayed)
    requires e.Apply2?
    ensures Operands(d) <= Variables(e) && Value(d) == old(Eager(e)) && Eager(e) == old(Eager(e))
    decreases e, 0
  {
    var Apply2(g, l, r) := e;
    VariablesExist(e);
    if l.Number? && r.Number? {
      d := Numbers(g, l.x, r.x);
    } else if l.Number? {
      var dr := Build(r);
      d := NumberTree(g, l.x, dr);
    } else if r.Number? {
      var dl := Build(l);
      d := TreeNumber(g, dl, r.x);
    } else {
      var dl := Build(l);
      var dr := Build(r);
      var t := Evaluate(dl);
      d := Copied(g, t.v, dr);
    }
  }

  /** x = e : every expression and every destination, also one that occurs in the expression. */
  method Assign(x: BigInt, e: Expr)
    modifies x
    ensures x.v == old(Eager(e))
  {
    match e
    case Number(y) => x.v := y.v;
    case _ =>
      var d := Build(e);
      GetRes(d, x);
  }

  // Differences of numbers, in every form of operand and with any of them as the destination.

  method AssignMinus(r: BigInt, x: BigInt, y: BigInt, w: nat)
    modifies r
    ensures r.v == old(x.v) - old(y.v) - w
  {
    var minus := (a: int, b: int) => a - b;
    var left := Apply2(minus, Number(x), Number(y));
    assert Eager(left) == x.v - y.v;
    Assign(r, ApplyWord(minus, left, w));
  }

  method AssignMinusRight(r: BigInt, x: BigInt, y: BigInt, z: BigInt)
    modifies r
    ensures r.v == old(x.v) - (old(y.v) - old(z.v))
  {
    var minus := (a: int, b: int) => a - b;
    var right := Apply2(minus, Number(y), Number(z));
    assert Eager(right) == y.v - z.v;
    Assign(r, Apply2(minus, Number(x), right));
  }

  method AssignMinusBoth(r: BigInt, x: BigInt, y: BigInt, z: BigInt, w: BigInt)
    modifies r
    ensures r.v == (old(x.v) - old(y.v)) - (old(z.v) - old(w.v))
  {
    var minus := (a: int, b: int) => a - b;
    var left, right := Apply2(minus, Number(x), Number(y)), Apply2(minus, Number(z), Number(w));
    assert Eager(left) == x.v - y.v && Eager(right) == z.v - w.v;
    Assign(r, Apply2(minus, left, right));
  }

  /** -((x - y) - z) */
  method AssignNegated(r: BigInt, x: BigInt, y: BigInt, z: BigInt)
    modifies r
    ensures r.v == -((old(x.v) - old(y.v)) - old(z.v))
  {
    var minus := (a: int, b: int) => a - b;
    var left := Apply2(minus, Number(x), Number(y));
    assert Eager(left) == x.v - y.v;
    var below := Apply2(minus, left, Number(z));
    assert Eager(below) == x.v - y.v - z.v;
    Assign(r, Apply1(a => -a, below));
  }

  /** A function of three numbers, in its order */
  method AssignTernary(r: BigInt, x: BigInt, y: BigInt, z: BigInt)
    modifies r
    ensures r.v == old(x.v) - (old(y.v) - 2 * old(z.v))
  {
    Assign(r, Apply3((a: int, b: int, c: int) => a - (b - 2 * c), x, y, z));
  }

  /** r = x++ : r gets the old value, and x is one more unless it is r itself. */
  method AssignPostIncrement(r: BigInt, x: BigInt)
    modifies r, x
    ensures r.v == old(x.v) && (r != x ==> x.v == old(x.v) + 1)
  {
    var d := x.PostIncrement();
    GetRes(d, r);
  }

  // ---------------------------------------------------------------- modular inverse

  /** x * a - 1 is k times m. */
  predicate InverseBy(x: int, a: int, m: int, k: int) {
    x * a == 1 + k * m
  }

  ghost predicate IsInverse(x: int, a: int, m: int) {
    0 <= x < m && exists k :: InverseBy(x, a, m, k)
  }

  /** What invert promises: the inverse of a modulo m if there is one, and otherwise zero. */
  ghost predicate Inverted(x: int, a: int, m: int) {
    IsInverse(x, a, m) || (x == 0 && forall y :: !IsInverse(y, a, m))
  }

  /** The result of mpz_gcdext: gcd == s * a + t * b, with a == gcd * qa and b == gcd * qb. */
  datatype Bezout = Bezout(gcd: int, s: int, t: int, qa: int, qb: int)

  /** The GMP manual also bounds s: at most half of b for positive b. */
  predicate IsBezout(z: Bezout, a: int, b: int) {
    && z.gcd > 0 && z.gcd == z.s * a + z.t * b && a == z.gcd * z.qa && b == z.gcd * z.qb
    && -b <= 2 * z.s <= b
  }

  /** _invert0: writes s to r, and reads the modulus again after that. */
  method Invert0(r: BigInt, a: BigInt, b: BigInt, z: Bezout)
    requires b.v >= 1 && IsBezout(z, a.v, b.v)
    modifies r
    ensures Inverted(r.v, old(a.v), old(b.v)) <==> r != b || z.gcd != 1 || z.s >= 0
    ensures old(b.v) > 2 ==>
              (Inverted(r.v, old(a.v), old(b.v)) <==> r != b || forall x :: IsInverse(x, old(a.v), old(b.v)) ==> 2 * x < old(b.v))
  {
    InvertCases(a.v, b.v, z);
    if b.v > 2 { SignIsHalf(a.v, b.v, z); }
    r.v := z.s;
    if z.gcd != 1 {
      r.v := 0;
    } else if r.v < 0 {
      r.v := r.v + b.v;
    }
  }

  /** A common divisor above one leaves no inverse. */
  lemma NoInverse(a: int, b: int, z: Bezout, y: int)
    requires b >= 1 && IsBezout(z, a, b) && z.gcd != 1
    ensures !IsInverse(y, a, b)
  {
    if IsInverse(y, a, b) {
      var k :| InverseBy(y, a, b, k);
      calc {
        1;
        y * a - k * b;
        y * (z.gcd * z.qa) - k * (z.gcd * z.qb);
        z.gcd * (y * z.qa - k * z.qb);
      }
      UnitFactor(z.gcd, y * z.qa - k * z.qb);
    }
  }

  lemma UnitFactor(g: int, q: int)
    requires g > 1
    ensures g * q != 1
  {
    if q >= 1 { assert g * q >= g; } else { assert g * q <= 0; }
  }

  /** What each branch of _invert0 leaves in r. */
  lemma InvertCases(a: int, b: int, z: Bezout)
    requires b >= 1 && IsBezout(z, a, b)
    ensures z.gcd != 1 ==> Inverted(0, a, b)
    ensures z.gcd == 1 && z.s >= 0 ==> Inverted(z.s, a, b)
    ensures z.gcd == 1 && z.s < 0 ==> Inverted(z.s + b, a, b) && !Inverted(z.s + z.s, a, b)
  {
    if z.gcd != 1 {
      forall y ensures !IsInverse(y, a, b) { NoInverse(a, b, z, y); }
    } else if z.s >= 0 {
      assert InverseBy(z.s, a, b, -z.t);
      assert IsInverse(z.s, a, b);
    } else {
      assert (z.s + b) * a == z.s * a + b * a;
      assert b * a - z.t * b == (a - z.t) * b;
      assert InverseBy(z.s + b, a, b, a - z.t);
    }
  }

  /** Inverses of a modulo m differ by a multiple of m. */
  lemma InversesAgree(x: int, y: int, a: int, m: int, k: int, l: int)
    requires InverseBy(x, a, m, k) && InverseBy(y, a, m, l)
    ensures x - y == (y * k - x * l) * m
  {
    assert x * (y * a - l * m) == x;
    assert y * (x * a - k * m) == y;
    assert x * (y * a) == y * (x * a);
    assert x * (l * m) == (x * l) * m;
    assert y * (k * m) == (y * k) * m;
    assert (y * k) * m - (x * l) * m == (y * k - x * l) * m;
  }

  /** A multiple of m between -m and 2 * m is 0 or m. */
  lemma SmallMultiple(q: int, m: int)
    requires m > 0 && -m < q * m < 2 * m
    ensures q == 0 || q == 1
  {
    assert q <= -1 ==> (q + 1) * m <= 0;
    assert q >= 2 ==> (q - 2) * m >= 0;
  }

  /** gcdext's coefficient is negative exactly when the inverse lies in the upper half. */
  lemma InverseFromBezout(a: int, b: int, z: Bezout, x: int)
    requires b > 2 && IsBezout(z, a, b) && z.gcd == 1 && IsInverse(x, a, b)
    ensures x == if z.s >= 0 then z.s else z.s + b
    ensures 2 * x != b
  {
    var k :| InverseBy(x, a, b, k);
    assert InverseBy(z.s, a, b, -z.t);
    var q := z.s * k - x * -z.t;
    InversesAgree(x, z.s, a, b, k, -z.t);
    SmallMultiple(q, b);
    if 2 * x == b {
      assert x * (a - 2 * k) == x * a - k * (2 * x);
      UnitFactor(x, a - 2 * k);
    }
  }

  lemma SignIsHalf(a: int, b: int, z: Bezout)
    requires b > 2 && IsBezout(z, a, b)
    ensures z.gcd == 1 && z.s < 0 <==> exists x :: IsInverse(x, a, b) && 2 * x >= b
  {
    InvertCases(a, b, z);
    forall x | IsInverse(x, a, b) ensures z.gcd == 1 && x == (if z.s >= 0 then z.s else z.s + b) && 2 * x != b {
      if z.gcd != 1 { NoInverse(a, b, z, x); } else { InverseFromBezout(a, b, z, x); }
    }
    if z.gcd == 1 && z.s < 0 { assert IsInverse(z.s + b, a, b); }
  }

  /** The inverse of 2 modulo 3 is 2, but written over its modulus it comes out as -2. */
  lemma InvertOverModulus()
    ensures IsBezout(Bezout(1, -1, 1, 2, 3), 2, 3) && Inverted(2, 2, 3) && !Inverted(-1 + -1, 2, 3)
  {
    assert InverseBy(2, 2, 3, 1);
  }
}
