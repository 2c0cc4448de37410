/**
 The rolling fingerprint of rabinpoly.h: a window of 48 bytes whose fingerprint is updated by
 appending the byte that comes and cancelling, by a table, the byte that leaves.
 */
module Rabin {

  type Byte = bv8

  // ---------------------------------------------------------------- words

  function Xor(a: bv64, b: bv64): bv64 { a ^ b }

  function Left8(a: bv64): bv64 { a << 8 }

  function Right1(a: bv64): bv64 { a >> 1 }

  /** p >> s, one bit at a time */
  function ShiftRight(p: bv64, s: nat): bv64 {
    if s == 0 then p else Right1(ShiftRight(p, s - 1))
  }

  function OrByte(a: bv64, m: Byte): bv64 { a | (m as bv64) }

  function Word(m: Byte): bv64 { m as bv64 }

  lemma BitsCommute(a: bv64, b: bv64)
    ensures a ^ b == b ^ a && a ^ 0 == a && a ^ a == 0
  {
  }

  lemma BitsAssociate(a: bv64, b: bv64, c: bv64)
    ensures (a ^ b) ^ c == a ^ (b ^ c)
  {
  }

  lemma XorLaws(a: bv64, b: bv64, c: bv64)
    ensures Xor(a, b) == Xor(b, a) && Xor(Xor(a, b), c) == Xor(a, Xor(b, c))
    ensures Xor(a, 0) == a && Xor(a, a) == 0
  {
    BitsCommute(a, b);
    BitsAssociate(a, b, c);
    assert Xor(a, b) == a ^ b && Xor(b, c) == b ^ c;
  }

  lemma XorSwap(a: bv64, b: bv64, x: bv64, y: bv64)
    ensures Xor(Xor(a, b), Xor(x, y)) == Xor(Xor(a, x), Xor(b, y))
  {
    hide Xor;
    XorLaws(a, b, Xor(x, y));
    XorLaws(b, x, y);
    XorLaws(x, b, y);
    XorLaws(a, x, Xor(b, y));
  }

  lemma Left8Xor(a: bv64, b: bv64)
    ensures Left8(Xor(a, b)) == Xor(Left8(a), Left8(b))
  {
  }

  lemma Right1Xor(a: bv64, b: bv64)
    ensures Right1(Xor(a, b)) == Xor(Right1(a), Right1(b))
  {
  }

  lemma {:induction false} ShiftRightXor(a: bv64, b: bv64, s: nat)
    ensures ShiftRight(Xor(a, b), s) == Xor(ShiftRight(a, s), ShiftRight(b, s))
  {
    hide Xor, Right1;
    if s > 0 {
      ShiftRightXor(a, b, s - 1);
      Right1Xor(ShiftRight(a, s - 1), ShiftRight(b, s - 1));
    }
  }

  /** The low byte of a word shifted left is free. */
  lemma OrIsXor(p: bv64, m: Byte)
    ensures OrByte(Left8(p), m) == Xor(Left8(p), Word(m))
  {
  }

  lemma WordZero()
    ensures Word(0) == 0
  {
  }

  // ---------------------------------------------------------------- the window

  const SIZE: nat := 48

  /** The tables, each given as a function of its index, and the shift that indexes T. */
  datatype Tables = Tables(shift: nat, t: bv64 -> bv64, u: Byte -> bv64)

  function Append8(tb: Tables, p: bv64, m: Byte): bv64 {
    Xor(OrByte(Left8(p), m), tb.t(ShiftRight(p, tb.shift)))
  }

  /** A window without its place in the buffer: the fingerprint and the bytes, oldest first. */
  datatype State = State(fingerprint: bv64, bytes: seq<Byte>)

  function Zeros(n: nat): (s: seq<Byte>)
    ensures |s| == n && forall i :: 0 <= i < n ==> s[i] == 0
  {
    if n == 0 then [] else Zeros(n - 1) + [0]
  }

  function Start(): State {
    State(0, Zeros(SIZE))
  }

  function Slide(tb: Tables, s: State, m: Byte): State
    requires |s.bytes| > 0
  {
    State(Append8(tb, Xor(s.fingerprint, tb.u(s.bytes[0])), m), s.bytes[1..] + [m])
  }

  /** The state after the bytes ms have been slid in since the reset. */
  function Slides(tb: Tables, ms: seq<Byte>): (s: State)
    ensures |s.bytes| == SIZE
  {
    if ms == [] then Start() else Slide(tb, Slides(tb, ms[..|ms| - 1]), ms[|ms| - 1])
  }

  lemma SlidesOneMore(tb: Tables, ms: seq<Byte>, m: Byte)
    ensures Slides(tb, ms + [m]) == Slide(tb, Slides(tb, ms), m)
  {
  }

  /** The window holds the last 48 bytes, after the zeros that reset put there. */
  lemma {:induction false} SlidesBytes(tb: Tables, ms: seq<Byte>)
    ensures Slides(tb, ms).bytes == (Zeros(SIZE) + ms)[|ms|..]
  {
    hide Append8;
    if ms != [] {
      var k := |ms| - 1;
      SlidesBytes(tb, ms[..k]);
      assert (Zeros(SIZE) + ms[..k])[k..][1..] + [ms[k]] == (Zeros(SIZE) + ms)[|ms|..];
    }
  }

  /** The fingerprint of a string without a window: every byte appended in turn. */
  function Fold(tb: Tables, p: bv64, ms: seq<Byte>): bv64 {
    if ms == [] then p else Append8(tb, Fold(tb, p, ms[..|ms| - 1]), ms[|ms| - 1])
  }

  // ---------------------------------------------------------------- cancelling the oldest byte

  ghost predicate Linear(t: bv64 -> bv64) {
    forall a, b :: t(Xor(a, b)) == Xor(t(a), t(b))
  }

  /** U[b] is the fingerprint of b followed by 47 zero bytes. */
  ghost predicate Cancels(tb: Tables) {
    forall b :: tb.u(b) == Fold(tb, 0, [b] + Zeros(SIZE - 1))
  }

  /** Appending a sum appends each part. */
  lemma AppendXor(tb: Tables, p: bv64, q: bv64, m: Byte)
    requires Linear(tb.t)
    ensures Append8(tb, Xor(p, q), m) == Xor(Append8(tb, p, m), Append8(tb, q, 0))
  {
    hide Xor, Left8, ShiftRight, OrByte, Word;
    var x, y := tb.t(ShiftRight(p, tb.shift)), tb.t(ShiftRight(q, tb.shift));
    ShiftRightXor(p, q, tb.shift);
    Left8Xor(p, q);
    OrIsXor(Xor(p, q), m);
    OrIsXor(p, m);
    OrIsXor(q, 0);
    WordZero();
    var a, b, w := Left8(p), Left8(q), Word(m);
    XorLaws(b, 0, 0);
    XorLaws(w, 0, 0);
    XorSwap(a, b, w, 0);
    XorSwap(Xor(a, w), b, x, y);
  }

  /** A fold from a sum is the sum of a fold and a fold of zeros. */
  lemma {:induction false} FoldXor(tb: Tables, p: bv64, q: bv64, ms: seq<Byte>)
    requires Linear(tb.t)
    ensures Fold(tb, Xor(p, q), ms) == Xor(Fold(tb, p, ms), Fold(tb, q, Zeros(|ms|)))
  {
    hide Append8, Xor, Linear;
    if ms != [] {
      var k := |ms| - 1;
      FoldXor(tb, p, q, ms[..k]);
      AppendXor(tb, Fold(tb, p, ms[..k]), Fold(tb, q, Zeros(k)), ms[k]);
      assert Zeros(|ms|)[..k] == Zeros(k);
    }
  }

  lemma {:induction false} FoldCons(tb: Tables, p: bv64, m: Byte, ms: seq<Byte>)
    ensures Fold(tb, p, [m] + ms) == Fold(tb, Append8(tb, p, m), ms)
  {
    hide Append8;
    var s := [m] + ms;
    if ms != [] {
      FoldCons(tb, p, m, ms[..|ms| - 1]);
      assert s[..|s| - 1] == [m] + ms[..|ms| - 1];
    } else {
      assert s[..0] == [];
    }
  }

  /** Removing a byte from the front of a string takes its own fingerprint out of the string's. */
  lemma FoldDrop(tb: Tables, m: Byte, ms: seq<Byte>)
    requires Linear(tb.t)
    ensures Xor(Fold(tb, 0, [m] + ms), Fold(tb, 0, [m] + Zeros(|ms|))) == Fold(tb, 0, ms)
  {
    hide Append8, Xor, Linear, Fold;
    var p := Append8(tb, 0, m);
    FoldCons(tb, 0, m, ms);
    FoldCons(tb, 0, m, Zeros(|ms|));
    XorLaws(p, 0, 0);
    XorLaws(0, p, 0);
    FoldXor(tb, 0, p, ms);
    var a, b := Fold(tb, 0, ms), Fold(tb, p, Zeros(|ms|));
    XorLaws(a, b, b);
    XorLaws(b, 0, 0);
    XorLaws(a, 0, 0);
  }

  lemma {:induction false} FoldZeros(tb: Tables, n: nat)
    requires Linear(tb.t)
    ensures Fold(tb, 0, Zeros(n)) == 0
  {
    hide Append8, Xor, Linear;
    if n > 0 {
      FoldZeros(tb, n - 1);
      assert Zeros(n)[..n - 1] == Zeros(n - 1);
      AppendXor(tb, 0, 0, 0);
      XorLaws(0, 0, 0);
      XorLaws(Append8(tb, 0, 0), 0, 0);
    }
  }

  /** The rolling fingerprint is the fingerprint of the window's bytes. */
  lemma {:induction false} Rolling(tb: Tables, ms: seq<Byte>)
    requires Linear(tb.t) && Cancels(tb)
    ensures Slides(tb, ms).fingerprint == Fold(tb, 0, Slides(tb, ms).bytes)
  {
    hide Append8, Xor, Linear;
    if ms == [] {
      FoldZeros(tb, SIZE);
    } else {
      var k := |ms| - 1;
      var s := Slides(tb, ms[..k]);
      Rolling(tb, ms[..k]);
      assert s.bytes == [s.bytes[0]] + s.bytes[1..];
      FoldDrop(tb, s.bytes[0], s.bytes[1..]);
      assert (s.bytes[1..] + [ms[k]])[..SIZE - 1] == s.bytes[1..];
    }
  }

  /** After 48 bytes or more, the rolling fingerprint depends on the last 48 alone, however the stream began. */
  lemma LastBytes(tb: Tables, ms: seq<Byte>)
    requires Linear(tb.t) && Cancels(tb) && |ms| >= SIZE
    ensures Slides(tb, ms).fingerprint == Fold(tb, 0, ms[|ms| - SIZE..])
  {
    hide Append8, Xor, Linear, Cancels, Fold, Slides;
    Rolling(tb, ms);
    SlidesBytes(tb, ms);
    assert (Zeros(SIZE) + ms)[|ms|..] == ms[|ms| - SIZE..];
  }

  /** The bytes of a buffer from the one after position p on, round to p itself */
  function Around(b: seq<Byte>, p: int): seq<Byte>
    requires -1 <= p < |b|
  {
    b[p + 1..] + b[..p + 1]
  }

  /** Writing over the byte after p takes the oldest byte out and puts the new one at the end. */
  lemma AroundStep(b: seq<Byte>, p: int, m: Byte)
    requires -1 <= p < |b| && |b| > 0
    ensures var q := if p + 1 >= |b| then 0 else p + 1;
            Around(b, p)[0] == b[q] && Around(b[q := m], q) == Around(b, p)[1..] + [m]
  {
  }

  // ---------------------------------------------------------------- the index into T

  /** p has no bit from the one numbered shift + 8 on. */
  ghost predicate Fits(p: bv64, shift: nat) {
    ShiftRight(p, shift + 8) == 0
  }

  /** The entry of T for p takes away what appending a byte moves out of the range that fits. */
  ghost predicate Reduces(tb: Tables) {
    forall p :: Fits(p, tb.shift) ==> ShiftRight(tb.t(ShiftRight(p, tb.shift)), tb.shift + 8) == ShiftRight(Left8(p), tb.shift + 8)
  }

  lemma {:induction false} ShiftRightMore(p: bv64, m: nat, n: nat)
    ensures ShiftRight(p, m + n) == ShiftRight(ShiftRight(p, m), n)
  {
    hide Right1;
    if n > 0 { ShiftRightMore(p, m, n - 1); }
  }

  lemma {:induction false} ShiftRightZero(n: nat)
    ensures ShiftRight(0, n) == 0
  {
    if n > 0 { ShiftRightZero(n - 1); }
  }

  lemma EightRight(p: bv64)
    ensures ShiftRight(p, 8) == Right1(Right1(Right1(Right1(Right1(Right1(Right1(Right1(p))))))))
  {
    hide Right1;
    assert ShiftRight(p, 1) == Right1(p);
    assert ShiftRight(p, 2) == Right1(Right1(p));
    assert ShiftRight(p, 3) == Right1(ShiftRight(p, 2));
    assert ShiftRight(p, 4) == Right1(ShiftRight(p, 3));
    assert ShiftRight(p, 5) == Right1(ShiftRight(p, 4));
    assert ShiftRight(p, 6) == Right1(ShiftRight(p, 5));
    assert ShiftRight(p, 7) == Right1(ShiftRight(p, 6));
  }

  lemma EightBits(p: bv64)
    ensures ((((((((p >> 1) >> 1) >> 1) >> 1) >> 1) >> 1) >> 1) >> 1) == p >> 8
  {
  }

  lemma ShiftEight(p: bv64)
    ensures ShiftRight(p, 8) == p >> 8
  {
    EightRight(p);
    EightBits(p);
    hide ShiftRight;
  }

  /** A word that fits gives an index into T that is in range. */
  lemma IndexInRange(p: bv64, shift: nat)
    requires Fits(p, shift)
    ensures ShiftRight(p, shift) < 256
  {
    hide ShiftRight;
    ShiftRightMore(p, shift, 8);
    ShiftEight(ShiftRight(p, shift));
    SmallByte(ShiftRight(p, shift));
  }

  lemma SmallByte(x: bv64)
    requires x >> 8 == 0
    ensures x < 256
  {
  }

  lemma WordFits(m: Byte, shift: nat)
    ensures Fits(Word(m), shift)
  {
    hide ShiftRight;
    ShiftEight(Word(m));
    ByteGone(m);
    ShiftRightMore(Word(m), 8, shift);
    ShiftRightZero(shift);
  }

  lemma ByteGone(m: Byte)
    ensures Word(m) >> 8 == 0
  {
  }

  lemma XorFits(p: bv64, q: bv64, shift: nat)
    requires Fits(p, shift) && Fits(q, shift)
    ensures Fits(Xor(p, q), shift)
  {
    hide ShiftRight, Xor;
    ShiftRightXor(p, q, shift + 8);
    XorLaws(0, 0, 0);
  }

  /** Appending to a word that fits reads T in range, and gives a word that fits. */
  lemma AppendFits(tb: Tables, p: bv64, m: Byte)
    requires Reduces(tb) && Fits(p, tb.shift)
    ensures ShiftRight(p, tb.shift) < 256 && Fits(Append8(tb, p, m), tb.shift)
  {
    hide ShiftRight, Xor, Left8, OrByte, Word;
    IndexInRange(p, tb.shift);
    var n, t := tb.shift + 8, tb.t(ShiftRight(p, tb.shift));
    OrIsXor(p, m);
    WordFits(m, tb.shift);
    ShiftRightXor(Left8(p), Word(m), n);
    ShiftRightXor(Xor(Left8(p), Word(m)), t, n);
    XorLaws(ShiftRight(t, n), 0, 0);
  }

  lemma {:induction false} FoldFits(tb: Tables, ms: seq<Byte>)
    requires Reduces(tb)
    ensures Fits(Fold(tb, 0, ms), tb.shift)
  {
    hide Append8, Fits, Reduces;
    if ms == [] {
      ZeroFits(tb.shift);
    } else {
      FoldFits(tb, ms[..|ms| - 1]);
      AppendFits(tb, Fold(tb, 0, ms[..|ms| - 1]), ms[|ms| - 1]);
    }
  }

  lemma ZeroFits(shift: nat)
    ensures Fits(0, shift)
  {
    ShiftRightZero(shift + 8);
  }

  lemma EntryFits(tb: Tables, b: Byte)
    requires Reduces(tb) && Cancels(tb)
    ensures Fits(tb.u(b), tb.shift)
  {
    hide Fits, Reduces, Fold;
    FoldFits(tb, [b] + Zeros(SIZE - 1));
    assert tb.u(b) == Fold(tb, 0, [b] + Zeros(SIZE - 1));
  }

  /** Every slide reads T in range: T has 256 entries, and the index never leaves it. */
  lemma {:induction false} SlidesInRange(tb: Tables, ms: seq<Byte>)
    requires Reduces(tb) && Cancels(tb)
    ensures var s := Slides(tb, ms);
            Fits(s.fingerprint, tb.shift) && ShiftRight(Xor(s.fingerprint, tb.u(s.bytes[0])), tb.shift) < 256
  {
    hide Append8, Fits, Reduces, Xor, ShiftRight, Fold;
    var s := Slides(tb, ms);
    if ms == [] {
      ZeroFits(tb.shift);
    } else {
      var k := |ms| - 1;
      SlidesInRange(tb, ms[..k]);
      SlideFits(tb, Slides(tb, ms[..k]), ms[k]);
    }
    EntryFits(tb, s.bytes[0]);
    XorFits(s.fingerprint, tb.u(s.bytes[0]), tb.shift);
    IndexInRange(Xor(s.fingerprint, tb.u(s.bytes[0])), tb.shift);
  }

  lemma SlideFits(tb: Tables, s: State, m: Byte)
    requires Reduces(tb) && Cancels(tb) && |s.bytes| > 0 && Fits(s.fingerprint, tb.shift)
    ensures Fits(Slide(tb, s, m).fingerprint, tb.shift)
  {
    hide Append8, Fits, Reduces, Xor, ShiftRight, Fold;
    EntryFits(tb, s.bytes[0]);
    XorFits(s.fingerprint, tb.u(s.bytes[0]), tb.shift);
    AppendFits(tb, Xor(s.fingerprint, tb.u(s.bytes[0])), m);
  }

  class Window {
    const tables: Tables
    var fingerprint: bv64
    var bufpos: int
    const buf: array<Byte>
    ghost var slid: seq<Byte>  // the bytes since the last reset

    ghost predicate Valid()
      reads this, buf
    {
      buf.Length == SIZE && -1 <= bufpos < SIZE && Contents() == Slides(tables, slid)
    }

    /** The bytes from the one after bufpos on, which is the oldest */
    ghost function Contents(): State
      reads this, buf
      requires buf.Length == SIZE && -1 <= bufpos < SIZE
    {
      State(fingerprint, Around(buf[..], bufpos))
    }

    /** The window starts anywhere in its buffer. */
    constructor (tables: Tables, bufpos: int)
      requires -1 <= bufpos < SIZE
      ensures Valid() && slid == [] && this.tables == tables && fresh(buf) && fingerprint == 0 && buf.Length == 48
    {
      this.tables, this.bufpos := tables, bufpos;
      fingerprint := 0;
      buf := new Byte[SIZE](_ => 0);
      slid := [];
      new;
      assert Contents().bytes == Zeros(SIZE);
    }

    method Slide8(m: Byte) returns (f: bv64)
      requires Valid()
      modifies this, buf
      ensures Valid() && slid == old(slid) + [m] && f == fingerprint == Slides(tables, old(slid) + [m]).fingerprint
    {
      hide Append8, Xor, Slides, Around;
      SlidesOneMore(tables, slid, m);
      AroundStep(buf[..], bufpos, m);
      bufpos := bufpos + 1;
      if bufpos >= SIZE {
        bufpos := 0;
      }
      var om := buf[bufpos];
      buf[bufpos] := m;
      fingerprint := Append8(tables, Xor(fingerprint, tables.u(om)), m);
      slid := slid + [m];
      assert buf[..] == old(buf[..])[bufpos := m];
      f := fingerprint;
    }

    method Reset()
      requires Valid()
      modifies this, buf
      ensures Valid() && slid == [] && bufpos == old(bufpos) && fingerprint == 0
    {
      fingerprint := 0;
      forall i | 0 <= i < buf.Length { buf[i] := 0; }
      slid := [];
      assert Contents().bytes == Zeros(SIZE);
    }
  }

  /** Two windows with the same tables that have slid in the same bytes since their resets agree, wherever their buffers stand. */
  lemma WindowsAgree(v: Window, w: Window)
    requires v.Valid() && w.Valid() && v.tables == w.tables && v.slid == w.slid
    ensures v.fingerprint == w.fingerprint && v.Contents().bytes == w.Contents().bytes
  {
  }
}
