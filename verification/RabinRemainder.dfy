/**
 What the fingerprint of rabinpoly.h is: the remainder of the bytes, read as one polynomial over
 GF(2), on division by the polynomial that the table T was made for. The reference is long
 division, one bit at a time.
 */
module RabinRemainder {
  import opened Rabin

  // ---------------------------------------------------------------- what appending always does

  /** With any tables, a byte can be told from the fingerprint that appending it to a given one leaves. */
  lemma AppendInjective(tb: Tables, p: bv64, m: Byte, m': Byte)
    requires Append8(tb, p, m) == Append8(tb, p, m')
    ensures m == m'
  {
    AppendIsShifted(tb, p, m);
    AppendIsShifted(tb, p, m');
    hide Append8, Xor, Word, Shifted;
    XorCancel(Shifted(tb, p), Word(m), Word(m'));
    WordInjective(m, m');
  }

  lemma AppendIsShifted(tb: Tables, p: bv64, m: Byte)
    ensures Append8(tb, p, m) == Xor(Shifted(tb, p), Word(m))
  {
    hide Xor, Left8, ShiftRight, OrByte, Word;
    var a, x, w := Left8(p), tb.t(ShiftRight(p, tb.shift)), Word(m);
    OrIsXor(p, m);
    XorLaws(a, w, x);
    XorLaws(w, x, 0);
    XorLaws(a, x, w);
  }

  function Shifted(tb: Tables, p: bv64): bv64 {
    Xor(Left8(p), tb.t(ShiftRight(p, tb.shift)))
  }

  lemma XorCancel(a: bv64, b: bv64, c: bv64)
    requires Xor(a, b) == Xor(a, c)
    ensures b == c
  {
    hide Xor;
    XorLaws(a, a, b);
    XorLaws(a, a, c);
    XorLaws(b, 0, 0);
    XorLaws(c, 0, 0);
    XorLaws(0, b, 0);
    XorLaws(0, c, 0);
  }

  lemma WordInjective(m: Byte, m': Byte)
    requires Word(m) == Word(m')
    ensures m == m'
  {
  }

  /** If T[0] is zero, as it is in every linear table, a byte appended to nothing is its own fingerprint. */
  lemma OneByte(tb: Tables, m: Byte)
    requires tb.t(0) == 0
    ensures Append8(tb, 0, m) == Word(m)
  {
    AppendIsShifted(tb, 0, m);
    ShiftRightZero(tb.shift);
    ZeroLeft();
    hide Append8, Xor;
    XorLaws(0, 0, 0);
    XorLaws(0, Word(m), 0);
    XorLaws(Word(m), 0, 0);
  }

  lemma ZeroLeft()
    ensures Left8(0) == 0
  {
  }

  // ---------------------------------------------------------------- words as polynomials

  /** p has degree below n. */
  ghost predicate Below(p: bv64, n: nat) {
    ShiftRight(p, n) == 0
  }

  function Left1(a: bv64): bv64 { a << 1 }

  function ShiftLeft(p: bv64, s: nat): bv64 {
    if s == 0 then p else Left1(ShiftLeft(p, s - 1))
  }

  lemma Left1Xor(a: bv64, b: bv64)
    ensures Left1(Xor(a, b)) == Xor(Left1(a), Left1(b))
  {
  }

  lemma BelowMore(p: bv64, m: nat, n: nat)
    requires Below(p, m) && m <= n
    ensures Below(p, n)
  {
    hide ShiftRight;
    ShiftRightMore(p, m, n - m);
    ShiftRightZero(n - m);
  }

  predicate AtMost(a: bv64, b: bv64) { a <= b }

  lemma {:induction false} ShiftRightOrder(a: bv64, b: bv64, n: nat)
    requires AtMost(a, b)
    ensures AtMost(ShiftRight(a, n), ShiftRight(b, n))
  {
    hide Right1, AtMost;
    if n > 0 {
      ShiftRightOrder(a, b, n - 1);
      HalfOrder(ShiftRight(a, n - 1), ShiftRight(b, n - 1));
    }
  }

  lemma HalfOrder(a: bv64, b: bv64)
    requires AtMost(a, b)
    ensures AtMost(Right1(a), Right1(b))
  {
  }

  const TOP_BIT: bv64 := 0x8000_0000_0000_0000

  lemma TopBitShifted()
    ensures ShiftRight(TOP_BIT, 56) == 0x80
  {
    hide ShiftRight;
    ShiftRightMore(TOP_BIT, 8, 48);
    ShiftEight(TOP_BIT);
    ShiftRightMore(0x80_0000_0000_0000, 8, 40);
    ShiftEight(0x80_0000_0000_0000);
    ShiftRightMore(0x8000_0000_0000, 8, 32);
    ShiftEight(0x8000_0000_0000);
    ShiftRightMore(0x80_0000_0000, 8, 24);
    ShiftEight(0x80_0000_0000);
    ShiftRightMore(0x8000_0000, 8, 16);
    ShiftEight(0x8000_0000);
    ShiftRightMore(0x80_0000, 8, 8);
    ShiftEight(0x80_0000);
    ShiftEight(0x8000);
  }

  /** Below degree 63 the top bit is free. */
  lemma TopFree(p: bv64)
    requires Below(p, 63)
    ensures p < TOP_BIT && Right1(Left1(p)) == p
  {
    if p >= TOP_BIT {
      ShiftRightOrder(TOP_BIT, p, 63);
      TopBitLast();
    }
    BackAndForth(p);
  }

  lemma TopBitLast()
    ensures ShiftRight(TOP_BIT, 63) == 1
  {
    TopBitShifted();
    ShiftRightMore(TOP_BIT, 56, 7);
    assert ShiftRight(0x80, 2) == 0x20;
    assert ShiftRight(0x80, 4) == 8;
    assert ShiftRight(0x80, 6) == 2;
    assert ShiftRight(0x80, 7) == 1;
  }

  lemma BackAndForth(p: bv64)
    ensures p < TOP_BIT ==> Right1(Left1(p)) == p
  {
  }

  /** Multiplying by x raises the degree by one. */
  lemma LeftBelow(p: bv64, n: nat)
    requires Below(p, n) && n <= 63
    ensures Below(Left1(p), n + 1)
    ensures forall k: nat :: ShiftRight(Left1(p), k + 1) == ShiftRight(p, k)
  {
    BelowMore(p, n, 63);
    TopFree(p);
    forall k: nat ensures ShiftRight(Left1(p), k + 1) == ShiftRight(p, k) {
      ShiftRightMore(Left1(p), 1, k);
      assert ShiftRight(Left1(p), 1) == Right1(Left1(p));
    }
  }

  // ---------------------------------------------------------------- residues

  /** poly is a polynomial of the given degree, which a word can hold with a byte to spare below it. */
  ghost predicate IsPoly(poly: bv64, deg: nat) {
    8 <= deg <= 63 && ShiftRight(poly, deg) == 1
  }

  /** q, of degree at most deg, less poly if it has that degree */
  function Reduce(poly: bv64, deg: nat, q: bv64): bv64 {
    if ShiftRight(q, deg) == 0 then q else Xor(q, poly)
  }

  lemma ReduceBelow(poly: bv64, deg: nat, q: bv64)
    requires IsPoly(poly, deg) && Below(q, deg + 1)
    ensures Below(Reduce(poly, deg, q), deg) && (ShiftRight(q, deg) == 0 || ShiftRight(q, deg) == 1)
  {
    hide Xor;
    OneOrZero(ShiftRight(q, deg));
    hide ShiftRight;
    ShiftRightMore(q, deg, 1);
    ShiftRightXor(q, poly, deg);
    XorLaws(1, 0, 0);
    ShiftOnce(ShiftRight(q, deg));
  }

  lemma ShiftOnce(x: bv64)
    ensures ShiftRight(x, 1) == Right1(x)
  {
  }

  lemma OneOrZero(x: bv64)
    ensures Right1(x) == 0 ==> x == 0 || x == 1
  {
  }

  /** Reducing a sum reduces each part. */
  lemma ReduceXor(poly: bv64, deg: nat, p: bv64, q: bv64)
    requires IsPoly(poly, deg) && Below(p, deg + 1) && Below(q, deg + 1)
    ensures Reduce(poly, deg, Xor(p, q)) == Xor(Reduce(poly, deg, p), Reduce(poly, deg, q))
  {
    hide Xor, ShiftRight;
    ReduceBelow(poly, deg, p);
    ReduceBelow(poly, deg, q);
    ShiftRightXor(p, q, deg);
    XorLaws(0, 1, 0);
    XorLaws(1, 0, 0);
    XorLaws(0, 0, 0);
    XorLaws(p, poly, q);
    XorLaws(poly, q, 0);
    XorLaws(p, q, poly);
    XorSwap(p, poly, q, poly);
    XorLaws(poly, 0, 0);
    XorLaws(Xor(p, q), 0, 0);
    Distinct01();
  }

  lemma Distinct01()
    ensures (0 as bv64) != (1 as bv64)
  {
  }

  /** p times x, modulo poly */
  function TimesX(poly: bv64, deg: nat, p: bv64): bv64 {
    Reduce(poly, deg, Left1(p))
  }

  /** p times x^n, modulo poly */
  function Times(poly: bv64, deg: nat, p: bv64, n: nat): bv64 {
    if n == 0 then p else TimesX(poly, deg, Times(poly, deg, p, n - 1))
  }

  lemma {:induction false} TimesBelow(poly: bv64, deg: nat, p: bv64, n: nat)
    requires IsPoly(poly, deg) && Below(p, deg)
    ensures Below(Times(poly, deg, p, n), deg)
  {
    hide Reduce, Left1, ShiftRight;
    if n > 0 {
      TimesBelow(poly, deg, p, n - 1);
      var q := Times(poly, deg, p, n - 1);
      LeftBelow(q, deg);
      ReduceBelow(poly, deg, Left1(q));
    }
  }

  lemma TimesXXor(poly: bv64, deg: nat, p: bv64, q: bv64)
    requires IsPoly(poly, deg) && Below(p, deg) && Below(q, deg)
    ensures TimesX(poly, deg, Xor(p, q)) == Xor(TimesX(poly, deg, p), TimesX(poly, deg, q))
  {
    hide Reduce, Left1, ShiftRight, Xor;
    LeftBelow(p, deg);
    LeftBelow(q, deg);
    Left1Xor(p, q);
    ReduceXor(poly, deg, Left1(p), Left1(q));
  }

  lemma {:induction false} TimesXor(poly: bv64, deg: nat, p: bv64, q: bv64, n: nat)
    requires IsPoly(poly, deg) && Below(p, deg) && Below(q, deg)
    ensures Times(poly, deg, Xor(p, q), n) == Xor(Times(poly, deg, p, n), Times(poly, deg, q, n))
  {
    hide TimesX, ShiftRight, Xor;
    if n > 0 {
      TimesXor(poly, deg, p, q, n - 1);
      TimesBelow(poly, deg, p, n - 1);
      TimesBelow(poly, deg, q, n - 1);
      TimesXXor(poly, deg, Times(poly, deg, p, n - 1), Times(poly, deg, q, n - 1));
    }
  }

  /** A polynomial of low degree is only shifted. */
  lemma {:induction false} TimesLow(poly: bv64, deg: nat, p: bv64, n: nat)
    requires n <= deg <= 63 && Below(p, deg - n)
    ensures Times(poly, deg, p, n) == ShiftLeft(p, n) && Below(ShiftLeft(p, n), deg)
    ensures forall k: nat :: k <= n ==> Below(ShiftLeft(p, k), deg - n + k)
  {
    hide Left1, ShiftRight;
    if n > 0 {
      BelowMore(p, deg - n, deg - n + 1);
      TimesLow(poly, deg, p, n - 1);
      LowShifts(p, deg - n, n);
      assert Below(ShiftLeft(p, n), deg);
    }
  }

  /** Shifting left raises the degree by as much. */
  lemma {:induction false} LowShifts(p: bv64, m: nat, n: nat)
    requires Below(p, m) && m + n <= 64
    ensures forall k: nat :: k <= n ==> Below(ShiftLeft(p, k), m + k)
  {
    hide Left1, ShiftRight;
    if n > 0 {
      LowShifts(p, m, n - 1);
      LeftBelow(ShiftLeft(p, n - 1), m + n - 1);
    }
  }

  /** Shifting left and right again gives back a word that had the room. */
  lemma {:induction false} LeftThenRight(p: bv64, m: nat, n: nat)
    requires Below(p, m) && m + n <= 64
    ensures ShiftRight(ShiftLeft(p, n), n) == p
  {
    hide Left1;
    if n > 0 {
      LeftThenRight(p, m, n - 1);
      LowShifts(p, m, n - 1);
      LeftBelow(ShiftLeft(p, n - 1), m + n - 1);
    }
  }

  lemma EightLeft(p: bv64)
    ensures ShiftLeft(p, 8) == Left8(p)
  {
    hide Left1, Left8;
    assert ShiftLeft(p, 1) == Left1(p);
    assert ShiftLeft(p, 2) == Left1(Left1(p));
    assert ShiftLeft(p, 3) == Left1(ShiftLeft(p, 2));
    assert ShiftLeft(p, 4) == Left1(ShiftLeft(p, 3));
    assert ShiftLeft(p, 5) == Left1(ShiftLeft(p, 4));
    assert ShiftLeft(p, 6) == Left1(ShiftLeft(p, 5));
    assert ShiftLeft(p, 7) == Left1(ShiftLeft(p, 6));
    EightLefts(p);
  }

  lemma EightLefts(p: bv64)
    ensures Left1(Left1(Left1(Left1(Left1(Left1(Left1(Left1(p)))))))) == Left8(p)
  {
    EightLeftBits(p);
  }

  lemma EightLeftBits(p: bv64)
    ensures ((((((((p << 1) << 1) << 1) << 1) << 1) << 1) << 1) << 1) == p << 8
  {
  }

  // ---------------------------------------------------------------- the table

  /** T[j] takes away j * x^shift * x^8 and puts its residue in its place. */
  ghost predicate IsTable(tb: Tables, poly: bv64) {
    && IsPoly(poly, tb.shift + 8)
    && forall j: bv64 :: j < 256 ==>
         tb.t(j) == Xor(Times(poly, tb.shift + 8, ShiftLeft(j, tb.shift), 8), Left8(ShiftLeft(j, tb.shift)))
  }

  lemma TableEntry(tb: Tables, poly: bv64, j: bv64)
    requires IsTable(tb, poly) && j < 256
    ensures tb.t(j) == Xor(Times(poly, tb.shift + 8, ShiftLeft(j, tb.shift), 8), Left8(ShiftLeft(j, tb.shift)))
  {
  }

  /** The high byte of p, in its place, and the rest of p */
  lemma Split(p: bv64, shift: nat)
    requires Below(p, shift + 8) && shift + 8 <= 63
    ensures var high := ShiftLeft(ShiftRight(p, shift), shift);
            && ShiftRight(p, shift) < 256 && Below(high, shift + 8) && Below(Xor(p, high), shift)
  {
    hide ShiftRight, ShiftLeft, Left1, Right1, Xor;
    IndexInRange(p, shift);
    var j := ShiftRight(p, shift);
    ShiftRightMore(p, shift, 8);
    LowShifts(j, 8, shift);
    LeftThenRight(j, 8, shift);
    ShiftRightXor(p, ShiftLeft(j, shift), shift);
    XorLaws(j, 0, 0);
  }

  /** append8 computes the remainder of p * x^8 + m. */
  lemma AppendIsRemainder(tb: Tables, poly: bv64, p: bv64, m: Byte)
    requires IsTable(tb, poly) && Below(p, tb.shift + 8)
    ensures Append8(tb, p, m) == Xor(Times(poly, tb.shift + 8, p, 8), Word(m))
  {
    AppendIsShifted(tb, p, m);
    ShiftedIsTimes(tb, poly, p);
  }

  lemma ShiftedIsTimes(tb: Tables, poly: bv64, p: bv64)
    requires IsTable(tb, poly) && Below(p, tb.shift + 8)
    ensures Shifted(tb, p) == Times(poly, tb.shift + 8, p, 8)
  {
    hide Xor, ShiftRight, Left8, Times, ShiftLeft;
    var deg, j := tb.shift + 8, ShiftRight(p, tb.shift);
    var high := ShiftLeft(j, tb.shift);
    var low := Xor(p, high);
    Split(p, tb.shift);
    TableEntry(tb, poly, j);
    BelowMore(low, tb.shift, deg);
    TimesLow(poly, deg, low, 8);
    EightLeft(low);
    TimesXor(poly, deg, low, high, 8);
    Rejoin(p, high);
    Left8Xor(p, high);
    Regroup(Left8(p), Times(poly, deg, high, 8), Left8(high));
  }

  lemma Rejoin(p: bv64, h: bv64)
    ensures Xor(Xor(p, h), h) == p
  {
    hide Xor;
    XorLaws(p, h, h);
    XorLaws(h, 0, 0);
    XorLaws(p, 0, 0);
  }

  lemma Regroup(a: bv64, t: bv64, b: bv64)
    ensures Xor(a, Xor(t, b)) == Xor(Xor(a, b), t)
  {
    hide Xor;
    XorLaws(t, b, 0);
    XorLaws(a, b, t);
  }

  /** The table of a polynomial keeps every word in range. */
  lemma TableReduces(tb: Tables, poly: bv64)
    requires IsTable(tb, poly)
    ensures Reduces(tb)
  {
    hide Xor, ShiftRight, Left8, Times, IsTable;
    forall p | Fits(p, tb.shift) ensures ShiftRight(tb.t(ShiftRight(p, tb.shift)), tb.shift + 8) == ShiftRight(Left8(p), tb.shift + 8) {
      TableReducesAt(tb, poly, p);
    }
  }

  lemma TableReducesAt(tb: Tables, poly: bv64, p: bv64)
    requires IsTable(tb, poly) && Fits(p, tb.shift)
    ensures ShiftRight(tb.t(ShiftRight(p, tb.shift)), tb.shift + 8) == ShiftRight(Left8(p), tb.shift + 8)
  {
    hide Xor, ShiftRight, Left8, Times;
    var deg, t := tb.shift + 8, tb.t(ShiftRight(p, tb.shift));
    ShiftedIsTimes(tb, poly, p);
    TimesBelow(poly, deg, p, 8);
    ShiftRightXor(Left8(p), t, deg);
    XorLaws(ShiftRight(Left8(p), deg), 0, 0);
    XorCancel(ShiftRight(Left8(p), deg), ShiftRight(t, deg), ShiftRight(Left8(p), deg));
  }

  // ---------------------------------------------------------------- long division

  function BitWord(b: bool): bv64 { if b then 1 else 0 }

  /** One step of long division: bring down the next bit, and subtract poly if it goes. */
  function Divide1(poly: bv64, deg: nat, r: bv64, bit: bool): bv64 {
    Reduce(poly, deg, Xor(Left1(r), BitWord(bit)))
  }

  /** The remainder after the bits, highest first, have been brought down to r */
  function Divide(poly: bv64, deg: nat, r: bv64, bits: seq<bool>): bv64 {
    if bits == [] then r else Divide1(poly, deg, Divide(poly, deg, r, bits[..|bits| - 1]), bits[|bits| - 1])
  }

  function Half(m: Byte): Byte { m >> 1 }

  function Odd(m: Byte): bool { m & 1 != 0 }

  /** The lowest n bits of a byte, highest first */
  function BitsOf(m: Byte, n: nat): (s: seq<bool>)
    ensures |s| == n
    decreases n
  {
    if n == 0 then [] else BitsOf(Half(m), n - 1) + [Odd(m)]
  }

  function Bits(m: Byte): (s: seq<bool>)
    ensures |s| == 8
  {
    BitsOf(m, 8)
  }

  function AllBits(ms: seq<Byte>): seq<bool> {
    if ms == [] then [] else AllBits(ms[..|ms| - 1]) + Bits(ms[|ms| - 1])
  }

  lemma {:induction false} DivideOn(poly: bv64, deg: nat, r: bv64, a: seq<bool>, b: seq<bool>)
    ensures Divide(poly, deg, r, a + b) == Divide(poly, deg, Divide(poly, deg, r, a), b)
  {
    hide Divide1;
    if b == [] {
      assert a + b == a;
    } else {
      DivideOn(poly, deg, r, a, b[..|b| - 1]);
      assert (a + b)[..|a + b| - 1] == a + b[..|b| - 1];
    }
  }

  /** The number that bits stand for */
  function Number(bits: seq<bool>): bv64 {
    if bits == [] then 0 else Xor(Left1(Number(bits[..|bits| - 1])), BitWord(bits[|bits| - 1]))
  }

  lemma BitBelow(b: bool)
    ensures Below(BitWord(b), 1)
  {
    ShiftOnce(BitWord(b));
  }

  lemma {:induction false} NumberBelow(bits: seq<bool>)
    requires |bits| <= 63
    ensures Below(Number(bits), |bits|)
  {
    hide Xor, ShiftRight, Left1, BitWord;
    if bits == [] {
      ShiftRightZero(0);
    } else {
      var n := |bits| - 1;
      NumberBelow(bits[..n]);
      LeftBelow(Number(bits[..n]), n);
      BitBelow(bits[n]);
      BelowMore(BitWord(bits[n]), 1, n + 1);
      ShiftRightXor(Left1(Number(bits[..n])), BitWord(bits[n]), n + 1);
      XorLaws(0, 0, 0);
    }
  }

  /** Bringing down up to eight bits multiplies the remainder and adds their number. */
  lemma {:induction false} DivideIsTimes(poly: bv64, deg: nat, r: bv64, bits: seq<bool>)
    requires IsPoly(poly, deg) && Below(r, deg) && |bits| <= 8
    ensures Divide(poly, deg, r, bits) == Xor(Times(poly, deg, r, |bits|), Number(bits))
  {
    hide Xor, ShiftRight, Left1, BitWord, Reduce;
    if bits == [] {
      XorLaws(r, 0, 0);
    } else {
      var n := |bits| - 1;
      var front, bit := bits[..n], BitWord(bits[n]);
      DivideIsTimes(poly, deg, r, front);
      DivideStep(poly, deg, Times(poly, deg, r, n), Number(front), bits[n], n) by {
        TimesBelow(poly, deg, r, n);
        NumberBelow(front);
      }
    }
  }

  lemma DivideStep(poly: bv64, deg: nat, t: bv64, k: bv64, bit: bool, n: nat)
    requires IsPoly(poly, deg) && Below(t, deg) && Below(k, n) && n < 8
    ensures Divide1(poly, deg, Xor(t, k), bit) == Xor(TimesX(poly, deg, t), Xor(Left1(k), BitWord(bit)))
  {
    hide Xor, ShiftRight, Left1, BitWord;
    var b := BitWord(bit);
    var low := Xor(Left1(k), b);
    LeftBelow(t, deg);
    LeftBelow(k, n);
    BitBelow(bit);
    BelowMore(b, 1, n + 1);
    ShiftRightXor(Left1(k), b, n + 1);
    XorLaws(0, 0, 0);
    BelowMore(low, n + 1, deg);
    BelowMore(low, deg, deg + 1);
    Left1Xor(t, k);
    XorLaws(Left1(t), Left1(k), b);
    ReduceXor(poly, deg, Left1(t), low);
  }

  lemma NumberSnoc(s: seq<bool>, b: bool)
    ensures Number(s + [b]) == Xor(Left1(Number(s)), BitWord(b))
  {
    hide Xor, Left1, BitWord;
    assert (s + [b])[..|s|] == s;
  }

  lemma NumberNone()
    ensures Number([]) == 0
  {
  }

  /** A byte is twice its half and its last bit. */
  lemma HalfByte(b: Byte)
    ensures Xor(Left1(Word(Half(b))), BitWord(Odd(b))) == Word(b)
  {
  }

  function Halved(m: Byte, n: nat): Byte
    decreases n
  {
    if n == 0 then m else Halved(Half(m), n - 1)
  }

  lemma {:induction false} BitsNumber(m: Byte, n: nat)
    requires Halved(m, n) == 0
    ensures Number(BitsOf(m, n)) == Word(m)
    decreases n
  {
    hide Word, Xor, Left1, BitWord, Half, Odd, Number;
    if n == 0 {
      WordZero();
      NumberNone();
    } else {
      BitsNumber(Half(m), n - 1);
      NumberSnoc(BitsOf(Half(m), n - 1), Odd(m));
      HalfByte(m);
    }
  }

  lemma HalvedEight(m: Byte)
    ensures Halved(m, 8) == 0
  {
    hide Half;
    assert Halved(m, 8) == Halved(Half(Half(m)), 6);
    assert Halved(m, 8) == Halved(Half(Half(Half(Half(m)))), 4);
    assert Halved(m, 8) == Halved(Half(Half(Half(Half(Half(Half(m)))))), 2);
    EightHalves(m);
  }

  lemma EightHalves(m: Byte)
    ensures Half(Half(Half(Half(Half(Half(Half(Half(m)))))))) == 0
  {
    EightHalvesBits(m);
  }

  lemma EightHalvesBits(m: Byte)
    ensures (((((((m >> 1) >> 1) >> 1) >> 1) >> 1) >> 1) >> 1) >> 1 == 0
  {
  }

  lemma ByteNumber(m: Byte)
    ensures Number(Bits(m)) == Word(m)
  {
    hide Number, BitsOf, Halved;
    HalvedEight(m);
    BitsNumber(m, 8);
  }

  /** Appending a byte divides on by its eight bits. */
  lemma AppendDivides(tb: Tables, poly: bv64, p: bv64, m: Byte)
    requires IsTable(tb, poly) && Below(p, tb.shift + 8)
    ensures Append8(tb, p, m) == Divide(poly, tb.shift + 8, p, Bits(m)) && Below(Append8(tb, p, m), tb.shift + 8)
  {
    hide Append8, Divide, Bits, Xor, Times, ShiftRight, Number, Word;
    var deg := tb.shift + 8;
    AppendIsRemainder(tb, poly, p, m);
    DivideIsTimes(poly, deg, p, Bits(m));
    ByteNumber(m);
    TimesBelow(poly, deg, p, 8);
    NumberBelow(Bits(m));
    BelowMore(Word(m), 8, deg);
    ShiftRightXor(Times(poly, deg, p, 8), Word(m), deg);
    XorLaws(0, 0, 0);
  }

  /** The fingerprint of a string is the remainder of its bits on division by poly. */
  lemma {:induction false} FoldIsRemainder(tb: Tables, poly: bv64, ms: seq<Byte>)
    requires IsTable(tb, poly)
    ensures Fold(tb, 0, ms) == Divide(poly, tb.shift + 8, 0, AllBits(ms)) && Below(Fold(tb, 0, ms), tb.shift + 8)
  {
    hide Append8, Divide, Bits, ShiftRight, IsTable;
    var deg := tb.shift + 8;
    if ms == [] {
      DivideNone(poly, deg);
      ShiftRightZero(deg);
    } else {
      var k := |ms| - 1;
      FoldIsRemainder(tb, poly, ms[..k]);
      AppendDivides(tb, poly, Fold(tb, 0, ms[..k]), ms[k]);
      DivideOn(poly, deg, 0, AllBits(ms[..k]), Bits(ms[k]));
    }
  }

  lemma DivideNone(poly: bv64, deg: nat)
    ensures Divide(poly, deg, 0, []) == 0
  {
  }

  /** After 48 slides or more, the rolling fingerprint is the remainder of the last 48 bytes. */
  lemma RollingIsRemainder(tb: Tables, poly: bv64, ms: seq<Byte>)
    requires IsTable(tb, poly) && Linear(tb.t) && Cancels(tb) && |ms| >= SIZE
    ensures Slides(tb, ms).fingerprint == Divide(poly, tb.shift + 8, 0, AllBits(ms[|ms| - SIZE..]))
  {
    hide Fold, Slides, Divide, Cancels, Linear, IsTable;
    LastBytes(tb, ms);
    FoldIsRemainder(tb, poly, ms[|ms| - SIZE..]);
  }
}
