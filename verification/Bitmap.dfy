/**
 Bitmap of libbyz: booleans packed 64 to a chunk, and an iterator that skips a chunk which
 holds no boolean of the wanted value. Sizes and indices are 32-bit unsigned.
 */
module Bitmap {

  type Chunk = bv64

  const CHUNK_BITS: nat := 64
  const UINT: nat := 0x1_0000_0000

  // ---------------------------------------------------------------- bits of a chunk

  /** 1UL << p, one place at a time */
  function Selector(p: nat): Chunk {
    if p == 0 then 1 else Selector(p - 1) << 1
  }

  function Raised(c: Chunk, n: nat): Chunk {
    if n == 0 then c else Raised(c, n - 1) << 1
  }

  lemma {:induction false} RaisedZero(n: nat)
    ensures Raised(0, n) == 0
  {
    if n > 0 { RaisedZero(n - 1); }
  }

  lemma {:induction false} RaisedSelector(p: nat, n: nat)
    ensures Raised(Selector(p), n) == Selector(p + n)
  {
    if n > 0 { RaisedSelector(p, n - 1); }
  }

  lemma SelectorNext(p: nat)
    ensures Selector(p + 1) == Selector(p) << 1
  {
  }

  lemma FourShifts(c: Chunk)
    ensures (((c << 1) << 1) << 1) << 1 == c << 4
  {
  }

  lemma SelectorFour(p: nat)
    ensures Selector(p + 4) == Selector(p) << 4
  {
    hide Selector;
    SelectorNext(p);
    SelectorNext(p + 1);
    SelectorNext(p + 2);
    SelectorNext(p + 3);
    FourShifts(Selector(p));
  }

  lemma SelectorSixteen(p: nat)
    ensures Selector(p + 16) == Selector(p) << 16
  {
    hide Selector;
    SelectorFour(p);
    SelectorFour(p + 4);
    SelectorFour(p + 8);
    SelectorFour(p + 12);
  }

  lemma TopSelector()
    ensures Selector(63) == 0x8000_0000_0000_0000
  {
    assert Selector(2) == 4 && Selector(3) == 8;
    hide Selector;
    SelectorFour(3);
    SelectorFour(7);
    SelectorFour(11);
    SelectorSixteen(15);
    SelectorSixteen(31);
    SelectorSixteen(47);
  }

  lemma SelectorNonzero(p: nat)
    requires p < CHUNK_BITS
    ensures Selector(p) != 0
  {
    hide Selector, Raised;
    TopSelector();
    RaisedSelector(p, 63 - p);
    RaisedZero(63 - p);
  }

  lemma ShiftedApart(a: Chunk, b: Chunk)
    ensures (a << 1) & (b << 1) == (a & b) << 1
    ensures 1 & (a << 1) == 0 && (a << 1) & 1 == 0
  {
  }

  lemma {:induction false} SelectorsApart(p: nat, q: nat)
    requires p != q
    ensures Selector(p) & Selector(q) == 0
  {
    if p == 0 {
      ShiftedApart(Selector(q - 1), 0);
    } else if q == 0 {
      ShiftedApart(Selector(p - 1), 0);
    } else {
      SelectorsApart(p - 1, q - 1);
      ShiftedApart(Selector(p - 1), Selector(q - 1));
    }
  }

  // The operators as functions, each hidden but for these lemmas: terms with many bit operations are slow to reason about.

  function And(a: Chunk, b: Chunk): Chunk { a & b }

  function Or(a: Chunk, b: Chunk): Chunk { a | b }

  function AndNot(a: Chunk, b: Chunk): Chunk { a & !b }

  lemma AndIs(a: Chunk, b: Chunk)
    ensures And(a, b) == a & b
  {
  }

  lemma OrIs(a: Chunk, b: Chunk)
    ensures Or(a, b) == a | b
  {
  }

  lemma MaskOther(c: Chunk, s: Chunk, t: Chunk)
    requires s & t == 0
    ensures (c | s) & t == c & t
  {
  }

  lemma OrOther(c: Chunk, s: Chunk, t: Chunk)
    requires And(s, t) == 0
    ensures And(Or(c, s), t) == And(c, t)
  {
    hide And, Or;
    AndIs(s, t);
    OrIs(c, s);
    AndIs(Or(c, s), t);
    AndIs(c, t);
    MaskOther(c, s, t);
  }

  lemma AndNotOther(c: Chunk, s: Chunk, t: Chunk)
    requires And(s, t) == 0
    ensures And(AndNot(c, s), t) == And(c, t)
  {
  }

  lemma OrSelf(c: Chunk, s: Chunk)
    ensures And(Or(c, s), s) == s
  {
  }

  lemma AndNotSelf(c: Chunk, s: Chunk)
    ensures And(AndNot(c, s), s) == 0
  {
  }

  lemma AndUniform(s: Chunk)
    ensures And(0, s) == 0 && And(0xFFFF_FFFF_FFFF_FFFF, s) == s
  {
  }

  function TestBit(c: Chunk, p: nat): bool {
    And(c, Selector(p)) != 0
  }

  function SetBit(c: Chunk, p: nat): Chunk {
    Or(c, Selector(p))
  }

  function ResetBit(c: Chunk, p: nat): Chunk {
    AndNot(c, Selector(p))
  }

  /** Writing a bit changes that bit and no other. */
  lemma BitsWritten(c: Chunk, p: nat, q: nat)
    requires p < CHUNK_BITS
    ensures TestBit(SetBit(c, p), q) == (p == q || TestBit(c, q))
    ensures TestBit(ResetBit(c, p), q) == (p != q && TestBit(c, q))
  {
    hide Selector, And, Or, AndNot;
    SelectorNonzero(p);
    var s, t := Selector(p), Selector(q);
    OrSelf(c, s);
    AndNotSelf(c, s);
    if p != q {
      ApartAnd(p, q);
      OrOther(c, s, t);
      AndNotOther(c, s, t);
    }
  }

  lemma ApartAnd(p: nat, q: nat)
    requires p != q
    ensures And(Selector(p), Selector(q)) == 0
  {
    hide Selector;
    SelectorsApart(p, q);
  }

  /** A chunk of one value only */
  function Uniform(value: bool): Chunk {
    if value then 0xFFFF_FFFF_FFFF_FFFF else 0
  }

  lemma UniformBits(value: bool, p: nat)
    requires p < CHUNK_BITS
    ensures TestBit(Uniform(value), p) == value
  {
    hide Selector, And;
    SelectorNonzero(p);
    AndUniform(Selector(p));
  }

  // ---------------------------------------------------------------- bitmaps

  /** The number of chunks that hold num booleans */
  function Chunks(num: nat): nat {
    (num + CHUNK_BITS - 1) / CHUNK_BITS
  }

  ghost predicate Sized(c: seq<Chunk>, num: nat) {
    num < UINT && |c| == Chunks(num)
  }

  function Bit(c: seq<Chunk>, i: nat): bool
    requires i / CHUNK_BITS < |c|
  {
    TestBit(c[i / CHUNK_BITS], i % CHUNK_BITS)
  }

  function Bits(c: seq<Chunk>, num: nat): (s: seq<bool>)
    requires |c| == Chunks(num)
    ensures |s| == num && forall i :: 0 <= i < num ==> s[i] == Bit(c, i)
  {
    seq(num, i requires 0 <= i < num => Bit(c, i))
  }

  lemma BitWritten(c: seq<Chunk>, num: nat, i: nat)
    requires |c| == Chunks(num) && i < num
    ensures var b, p := i / CHUNK_BITS, i % CHUNK_BITS;
            && Bits(c[b := SetBit(c[b], p)], num) == Bits(c, num)[i := true]
            && Bits(c[b := ResetBit(c[b], p)], num) == Bits(c, num)[i := false]
  {
    hide TestBit, SetBit, ResetBit;
    var b, p := i / CHUNK_BITS, i % CHUNK_BITS;
    var c1, c0 := c[b := SetBit(c[b], p)], c[b := ResetBit(c[b], p)];
    forall j | 0 <= j < num ensures Bit(c1, j) == (j == i || Bit(c, j)) && Bit(c0, j) == (j != i && Bit(c, j)) {
      BitsWritten(c[b], p, j % CHUNK_BITS);
      assert j == i <==> j / CHUNK_BITS == b && j % CHUNK_BITS == p;
    }
  }

  class Bitmap {
    const num: nat
    const chunks: array<Chunk>

    ghost predicate Valid()
      reads this, chunks
    {
      Sized(chunks[..], num)
    }

    constructor (sz: nat, value: bool)
      requires sz < UINT
      ensures Valid() && num == sz && fresh(chunks)
      ensures forall i :: 0 <= i < sz ==> Bits(chunks[..], sz)[i] == value
    {
      num := sz;
      chunks := new Chunk[Chunks(sz)](_ => Uniform(value));
      new;
      hide TestBit, Uniform;
      forall i | 0 <= i < sz ensures Bit(chunks[..], i) == value { UniformBits(value, i % CHUNK_BITS); }
    }

    method Test(i: nat) returns (t: bool)
      requires Valid() && i < num
      ensures t == Bits(chunks[..], num)[i]
    {
      t := TestBit(chunks[i / CHUNK_BITS], i % CHUNK_BITS);
    }

    method Set(i: nat)
      requires Valid() && i < num
      modifies chunks
      ensures Valid() && Bits(chunks[..], num) == old(Bits(chunks[..], num))[i := true]
    {
      hide SetBit, TestBit;
      BitWritten(chunks[..], num, i);
      chunks[i / CHUNK_BITS] := SetBit(chunks[i / CHUNK_BITS], i % CHUNK_BITS);
      assert chunks[..] == old(chunks[..])[i / CHUNK_BITS := SetBit(old(chunks[..])[i / CHUNK_BITS], i % CHUNK_BITS)];
    }

    method Reset(i: nat)
      requires Valid() && i < num
      modifies chunks
      ensures Valid() && Bits(chunks[..], num) == old(Bits(chunks[..], num))[i := false]
    {
      hide ResetBit, TestBit;
      BitWritten(chunks[..], num, i);
      chunks[i / CHUNK_BITS] := ResetBit(chunks[i / CHUNK_BITS], i % CHUNK_BITS);
      assert chunks[..] == old(chunks[..])[i / CHUNK_BITS := ResetBit(old(chunks[..])[i / CHUNK_BITS], i % CHUNK_BITS)];
    }

    /** assign: reset, then or with the value's bit */
    method Assign(i: nat, value: bool)
      requires Valid() && i < num
      modifies chunks
      ensures Valid() && Bits(chunks[..], num) == old(Bits(chunks[..], num))[i := value]
    {
      Reset(i);
      if value { Set(i); }
    }

    /** total_set: size () is a signed int, so a large bitmap counts as empty. */
    method TotalSet() returns (n: nat)
      requires Valid()
      ensures n == if num < UINT / 2 then CountTrue(Bits(chunks[..], num)) else 0
    {
      hide TestBit;
      n := 0;
      var size := if num < UINT / 2 then num else num - UINT;
      ghost var b := Bits(chunks[..], num);
      var i := 0;
      while i < size
        invariant 0 <= i && (size >= 0 ==> i <= size) && (size < 0 ==> i == 0)
        invariant n == CountTrue(b[..i])
      {
        var t := Test(i);
        assert b[..i + 1][..i] == b[..i];
        if t { n := n + 1; }
        i := i + 1;
      }
      assert size >= 0 ==> b[..i] == b;
    }
  }

  // ---------------------------------------------------------------- counting and matching

  function CountTrue(b: seq<bool>): nat {
    if b == [] then 0 else CountTrue(b[..|b| - 1]) + if b[|b| - 1] then 1 else 0
  }

  /** The indices from i on that hold value, in order */
  ghost function Matches(b: seq<bool>, value: bool, i: nat): seq<nat>
    decreases |b| - i
  {
    if i >= |b| then [] else (if b[i] == value then [i] else []) + Matches(b, value, i + 1)
  }

  /** Matches are exactly the indices with the value. */
  lemma {:induction false} MatchesHas(b: seq<bool>, value: bool, i: nat, j: nat)
    ensures j in Matches(b, value, i) <==> i <= j < |b| && b[j] == value
    decreases |b| - i
  {
    if i < |b| { MatchesHas(b, value, i + 1, j); }
  }

  /** They are ascending, so no index comes twice. */
  lemma {:induction false} MatchesAscend(b: seq<bool>, value: bool, i: nat, x: nat, y: nat)
    requires x < y < |Matches(b, value, i)|
    ensures Matches(b, value, i)[x] < Matches(b, value, i)[y]
    decreases |b| - i
  {
    var rest := Matches(b, value, i + 1);
    if b[i] != value {
      MatchesAscend(b, value, i + 1, x, y);
    } else if x == 0 {
      MatchesHas(b, value, i + 1, rest[y - 1]);
    } else {
      MatchesAscend(b, value, i + 1, x - 1, y - 1);
    }
  }

  lemma {:induction false} CountMatches(b: seq<bool>, i: nat)
    requires i <= |b|
    ensures |Matches(b, true, i)| + CountTrue(b[..i]) == CountTrue(b)
    decreases |b| - i
  {
    if i < |b| {
      CountMatches(b, i + 1);
      assert b[..i + 1][..i] == b[..i];
    } else {
      assert b[..i] == b;
    }
  }

  lemma NoMatches(b: seq<bool>, value: bool, i: nat)
    ensures i >= |b| ==> Matches(b, value, i) == []
  {
  }

  /** Indices without the value may be passed over. */
  lemma {:induction false} SkipTo(b: seq<bool>, value: bool, i: nat, j: nat)
    requires i <= j && forall k :: i <= k < j && k < |b| ==> b[k] != value
    ensures Matches(b, value, i) == Matches(b, value, j)
    decreases j - i
  {
    if i < j { SkipTo(b, value, i + 1, j); }
  }

  // ---------------------------------------------------------------- the iterator

  /** Iter: from an index inside a chunk, that chunk is not one to skip. */
  ghost predicate Steady(c: seq<Chunk>, num: nat, value: bool, index: nat) {
    && Sized(c, num)
    && (index < num && index % CHUNK_BITS != 0 ==> c[index / CHUNK_BITS] != Uniform(!value))
  }

  /** The last chunk ends at the edge of the index range and is one to skip. */
  ghost predicate Wraps(c: seq<Chunk>, num: nat, value: bool)
    requires Sized(c, num)
  {
    num > UINT - CHUNK_BITS && c[|c| - 1] == Uniform(!value)
  }

  /** The index after one round of get's loop, in 32 bits */
  function Advance(c: seq<Chunk>, num: nat, value: bool, index: nat): nat
    requires |c| == Chunks(num) && index < num
  {
    if c[index / CHUNK_BITS] == Uniform(!value) then (index + CHUNK_BITS) % UINT else (index + 1) % UINT
  }

  /** A round passes over indices without the value only, apart from one it yields. */
  lemma AdvanceSkips(c: seq<Chunk>, num: nat, value: bool, index: nat)
    requires Steady(c, num, value, index) && index < num && !Wraps(c, num, value)
    ensures var next := Advance(c, num, value, index);
            && index < next && Steady(c, num, value, next)
            && (forall k :: index < k < next && k < num ==> Bit(c, k) != value)
            && (next != index + 1 ==> index % CHUNK_BITS == 0 && Bit(c, index) != value)
  {
    hide TestBit, Uniform;
    var b := index / CHUNK_BITS;
    if c[b] == Uniform(!value) {
      forall k | index <= k < index + CHUNK_BITS && k < num ensures Bit(c, k) != value {
        UniformBits(!value, k % CHUNK_BITS);
        assert k / CHUNK_BITS == b;
      }
    }
  }

  /** What one round does to the indices still to be yielded. */
  lemma RoundMatches(c: seq<Chunk>, num: nat, value: bool, index: nat)
    requires Steady(c, num, value, index) && index < num && !Wraps(c, num, value)
    ensures var next, b, skip := Advance(c, num, value, index), Bits(c, num), c[index / CHUNK_BITS] == Uniform(!value);
            && next == (if skip then (index + CHUNK_BITS) % UINT else (index + 1) % UINT)
            && index < next && Steady(c, num, value, next)
            && Matches(b, value, index) == (if !skip && b[index] == value then [index] else []) + Matches(b, value, next)
  {
    hide TestBit, Uniform, Wraps, Steady, Bit, Bits, Matches, Advance, Chunks;
    AdvanceIs(c, num, value, index);
    AdvanceSkips(c, num, value, index);
    var next, b := Advance(c, num, value, index), Bits(c, num);
    if c[index / CHUNK_BITS] == Uniform(!value) {
      SkipTo(b, value, index, next);
    } else {
      FirstMatch(b, value, index);
    }
  }

  lemma AdvanceIs(c: seq<Chunk>, num: nat, value: bool, index: nat)
    requires Steady(c, num, value, index) && index < num
    ensures |c| == Chunks(num) && index / CHUNK_BITS < |c|
    ensures if c[index / CHUNK_BITS] == Uniform(!value) then Advance(c, num, value, index) == (index + CHUNK_BITS) % UINT
            else Advance(c, num, value, index) == (index + 1) % UINT == index + 1
  {
  }

  lemma FirstMatch(b: seq<bool>, value: bool, i: nat)
    requires i < |b|
    ensures Matches(b, value, i) == (if b[i] == value then [i] else []) + Matches(b, value, i + 1)
  {
  }

  class Iter {
    const bitmap: Bitmap
    const value: bool
    var index: nat
    const ignoreValue: Chunk

    ghost predicate Valid()
      reads this, bitmap, bitmap.chunks
    {
      ignoreValue == Uniform(!value) && bitmap.Valid() && Steady(bitmap.chunks[..], bitmap.num, value, index)
    }

    /** The indices still to be yielded */
    ghost function Rest(): seq<nat>
      reads this, bitmap, bitmap.chunks
      requires Valid()
    {
      Matches(Bits(bitmap.chunks[..], bitmap.num), value, index)
    }

    constructor (bitmap: Bitmap, value: bool)
      requires bitmap.Valid()
      ensures Valid() && this.bitmap == bitmap && this.value == value && index == 0
    {
      this.bitmap, this.value, index := bitmap, value, 0;
      ignoreValue := Uniform(!value);
    }

    method Get() returns (found: bool, ind: nat)
      requires Valid() && !Wraps(bitmap.chunks[..], bitmap.num, value)
      modifies this
      ensures Valid() && index >= old(index)
      ensures if old(Rest()) == [] then !found && Rest() == [] else found && old(Rest()) == [ind] + Rest()
    {
      hide TestBit, Uniform, Matches, Steady, Wraps, Advance;
      found, ind := false, 0;
      ghost var c := bitmap.chunks[..];
      while index < bitmap.num
        invariant Valid() && index >= old(index) && Rest() == old(Rest())
        decreases bitmap.num - index
      {
        RoundMatches(c, bitmap.num, value, index);
        if bitmap.chunks[index / CHUNK_BITS] == ignoreValue {
          index := (index + CHUNK_BITS) % UINT;
        } else {
          var thisValue := bitmap.Test(index);
          if thisValue == value {
            ind := index;
            index := (index + 1) % UINT;
            return true, ind;
          }
          index := (index + 1) % UINT;
        }
      }
      NoMatches(Bits(c, bitmap.num), value, index);
    }
  }

  /** Repeated get: every matching index, once each and ascending. */
  method Yielded(bitmap: Bitmap, value: bool) returns (ys: seq<nat>)
    requires bitmap.Valid() && !Wraps(bitmap.chunks[..], bitmap.num, value)
    ensures ys == Matches(Bits(bitmap.chunks[..], bitmap.num), value, 0)
  {
    hide TestBit, Uniform, Matches;
    ys := [];
    var iter := new Iter(bitmap, value);
    ghost var all := iter.Rest();
    var found, ind := iter.Get();
    while found
      invariant iter.Valid() && iter.bitmap == bitmap && iter.value == value
      invariant ys + (if found then [ind] else []) + iter.Rest() == all
      invariant !found ==> iter.Rest() == []
      decreases |all| - |ys|
    {
      ys := ys + [ind];
      found, ind := iter.Get();
    }
  }

  /** The iterator's index after n rounds of get's loop, over as many calls as that takes */
  ghost function IndexAfter(c: seq<Chunk>, num: nat, value: bool, n: nat): nat
    requires Sized(c, num)
  {
    if n == 0 then 0 else
      var i := IndexAfter(c, num, value, n - 1);
      if i < num then Advance(c, num, value, i) else i
  }

  /** Where the index wraps, it never gets to num. */
  lemma {:induction false} NeverDone(c: seq<Chunk>, num: nat, value: bool, n: nat)
    requires Sized(c, num) && Wraps(c, num, value)
    ensures var i := IndexAfter(c, num, value, n); i < num && Steady(c, num, value, i)
  {
    hide Uniform, Advance, Steady, Wraps;
    if n == 0 {
      AtStart(c, num, value);
    } else {
      NeverDone(c, num, value, n - 1);
      AdvanceWraps(c, num, value, IndexAfter(c, num, value, n - 1));
    }
  }

  lemma AtStart(c: seq<Chunk>, num: nat, value: bool)
    requires Sized(c, num)
    ensures Steady(c, num, value, 0) && (Wraps(c, num, value) ==> num > 0)
  {
  }

  lemma AdvanceWraps(c: seq<Chunk>, num: nat, value: bool, index: nat)
    requires Steady(c, num, value, index) && index < num && Wraps(c, num, value)
    ensures var next := Advance(c, num, value, index); next < num && Steady(c, num, value, next)
  {
    hide Uniform;
    var b := index / CHUNK_BITS;
    assert |c| == 0x400_0000;
    if c[b] == Uniform(!value) {
      assert index == b * CHUNK_BITS;
    } else {
      assert b < |c| - 1;
      assert (index + 1) % CHUNK_BITS != 0 ==> (index + 1) / CHUNK_BITS == b;
    }
  }

  lemma {:induction false} DoneAfter(c: seq<Chunk>, num: nat, value: bool, n: nat) returns (k: nat)
    requires Sized(c, num) && !Wraps(c, num, value) && Steady(c, num, value, IndexAfter(c, num, value, n))
    ensures IndexAfter(c, num, value, k) >= num
    decreases num - IndexAfter(c, num, value, n)
  {
    k := n;
    if IndexAfter(c, num, value, n) < num {
      AdvanceSkips(c, num, value, IndexAfter(c, num, value, n));
      k := DoneAfter(c, num, value, n + 1);
    }
  }

  /** Iteration comes to an end, with get returning false, exactly where the index does not wrap. */
  lemma IterationEndsIff(c: seq<Chunk>, num: nat, value: bool)
    requires Sized(c, num)
    ensures (exists n :: IndexAfter(c, num, value, n) >= num) <==> !Wraps(c, num, value)
  {
    if Wraps(c, num, value) {
      forall n: nat ensures IndexAfter(c, num, value, n) < num { NeverDone(c, num, value, n); }
    } else {
      var k := DoneAfter(c, num, value, 0);
    }
  }

  /** The number of indices yielded for true is total_set, exactly if the size fits a signed int or no bit is set. */
  lemma YieldsTotal(b: seq<bool>, total: nat)
    requires total == if |b| < UINT / 2 then CountTrue(b) else 0
    ensures |Matches(b, true, 0)| == CountTrue(b)
    ensures |Matches(b, true, 0)| == total <==> |b| < UINT / 2 || forall i :: 0 <= i < |b| ==> !b[i]
  {
    CountMatches(b, 0);
    if Matches(b, true, 0) == [] {
      forall i | 0 <= i < |b| ensures !b[i] { MatchesHas(b, true, 0, i); }
    } else {
      MatchesHas(b, true, 0, Matches(b, true, 0)[0]);
    }
  }
}
