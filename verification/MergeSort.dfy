/**
 The algorithm of list_sort, on sequences: a bottom-up merge sort whose part[] array counts
 the consumed nodes in binary, with a last level that overflows. ListSort.dfy shows that
 the pointer code computes exactly these functions; this file shows what they compute.
 */
module MergeSort {
  import opened Powers
  import opened Sequences

  const MAX_LIST_LENGTH_BITS: nat := 20
  const TOP: nat := MAX_LIST_LENGTH_BITS - 1   // the level that takes the overflow

  // ---------------------------------------------------------------- merging

  /** Equal elements are taken from a. */
  function Merge<T>(cmp: (T, T) -> int, a: seq<T>, b: seq<T>): (r: seq<T>)
    ensures |r| == |a| + |b|
    decreases |a| + |b|
  {
    if a == [] then b
    else if b == [] then a
    else if cmp(a[0], b[0]) <= 0 then [a[0]] + Merge(cmp, a[1..], b)
    else [b[0]] + Merge(cmp, a, b[1..])
  }

  /** How often merging a and b calls cmp. */
  function MergeCalls<T>(cmp: (T, T) -> int, a: seq<T>, b: seq<T>): (n: nat)
    ensures n <= |a| + |b|
    decreases |a| + |b|
  {
    if a == [] || b == [] then 0
    else if cmp(a[0], b[0]) <= 0 then 1 + MergeCalls(cmp, a[1..], b)
    else 1 + MergeCalls(cmp, a, b[1..])
  }

  /** Merging cannot stop before one side is used up. */
  lemma {:induction false} MergeCallsLeast<T>(cmp: (T, T) -> int, a: seq<T>, b: seq<T>)
    ensures MergeCalls(cmp, a, b) >= if |a| <= |b| then |a| else |b|
    decreases |a| + |b|
  {
    if a != [] && b != [] {
      if cmp(a[0], b[0]) <= 0 { MergeCallsLeast(cmp, a[1..], b); } else { MergeCallsLeast(cmp, a, b[1..]); }
    }
  }

  // ---------------------------------------------------------------- the binary counter

  ghost predicate Levels<T>(part: seq<seq<T>>) {
    |part| == MAX_LIST_LENGTH_BITS + 1 && part[MAX_LIST_LENGTH_BITS] == []
  }

  datatype Inserted<T> = Inserted(part: seq<seq<T>>, slot: nat, calls: nat)

  /** Carry cur upwards from lev through the occupied levels, and put it in the first free one. */
  function Insert<T>(cmp: (T, T) -> int, part: seq<seq<T>>, lev: nat, cur: seq<T>): (r: Inserted<T>)
    requires Levels(part) && lev <= MAX_LIST_LENGTH_BITS
    ensures Levels(r.part) && r.slot <= TOP
    decreases |part| - lev
  {
    if lev == MAX_LIST_LENGTH_BITS then Inserted(part[TOP := cur], TOP, 0)
    else if part[lev] == [] then Inserted(part[lev := cur], lev, 0)
    else
      var r := Insert(cmp, part[lev := []], lev + 1, Merge(cmp, part[lev], cur));
      r.(calls := r.calls + MergeCalls(cmp, part[lev], cur))
  }

  datatype Counter<T> = Counter(part: seq<seq<T>>, maxLev: nat, calls: nat)

  ghost predicate CounterOk<T>(c: Counter<T>) {
    Levels(c.part) && c.maxLev <= TOP
  }

  function Init<T>(): (c: Counter<T>)
    ensures CounterOk(c)
  {
    Counter(seq(MAX_LIST_LENGTH_BITS + 1, i => []), 0, 0)
  }

  function Consume<T>(cmp: (T, T) -> int, c: Counter<T>, x: T): (c': Counter<T>)
    requires CounterOk(c)
    ensures CounterOk(c')
  {
    var r := Insert(cmp, c.part, 0, [x]);
    Counter(r.part, if r.slot > c.maxLev then r.slot else c.maxLev, c.calls + r.calls)
  }

  function Run<T>(cmp: (T, T) -> int, xs: seq<T>): (c: Counter<T>)
    ensures CounterOk(c)
  {
    if xs == [] then Init() else Consume(cmp, Run(cmp, xs[..|xs| - 1]), xs[|xs| - 1])
  }

  // ---------------------------------------------------------------- the final merges

  /** Merge the levels lev..maxLev-1 into list, lowest first. */
  function Collect<T>(cmp: (T, T) -> int, part: seq<seq<T>>, lev: nat, maxLev: nat, list: seq<T>): seq<T>
    requires Levels(part) && lev <= maxLev <= TOP
    decreases maxLev - lev
  {
    if lev == maxLev then list
    else Collect(cmp, part, lev + 1, maxLev, if part[lev] == [] then list else Merge(cmp, part[lev], list))
  }

  function CollectCalls<T>(cmp: (T, T) -> int, part: seq<seq<T>>, lev: nat, maxLev: nat, list: seq<T>): nat
    requires Levels(part) && lev <= maxLev <= TOP
    decreases maxLev - lev
  {
    if lev == maxLev then 0
    else if part[lev] == [] then CollectCalls(cmp, part, lev + 1, maxLev, list)
    else MergeCalls(cmp, part[lev], list) + CollectCalls(cmp, part, lev + 1, maxLev, Merge(cmp, part[lev], list))
  }

  function Sort<T>(cmp: (T, T) -> int, xs: seq<T>): seq<T> {
    var c := Run(cmp, xs);
    Merge(cmp, c.part[c.maxLev], Collect(cmp, c.part, 0, c.maxLev, []))
  }

  /** The last merge calls cmp once for each node, needed or not; an empty list is not sorted at all. */
  function SortCalls<T>(cmp: (T, T) -> int, xs: seq<T>): nat {
    if xs == [] then 0
    else
      var c := Run(cmp, xs);
      c.calls + CollectCalls(cmp, c.part, 0, c.maxLev, []) + |xs|
  }

  // ---------------------------------------------------------------- what part[] holds

  /** Levels lev.. hold k units of 2^lev elements in binary; the top level holds all the rest. */
  ghost predicate Holds<T>(part: seq<seq<T>>, lev: nat, k: nat)
    requires Levels(part) && lev <= TOP
    decreases TOP - lev
  {
    if lev == TOP then |part[TOP]| == k * Pow2(TOP)
    else |part[lev]| == (if k % 2 == 1 then Pow2(lev) else 0) && Holds(part, lev + 1, k / 2)
  }

  lemma HoldsStep<T>(part: seq<seq<T>>, lev: nat, k: nat)
    requires Levels(part) && lev < TOP
    ensures Holds(part, lev, k) <==> |part[lev]| == (if k % 2 == 1 then Pow2(lev) else 0) && Holds(part, lev + 1, k / 2)
  {
    hide Pow2;
  }

  lemma HoldsTop<T>(part: seq<seq<T>>, k: nat)
    requires Levels(part)
    ensures Holds(part, TOP, k) <==> |part[TOP]| == k * Pow2(TOP)
  {
    hide Pow2;
  }

  lemma Halves(k: nat)
    ensures if k % 2 == 0 then (k + 1) % 2 == 1 && (k + 1) / 2 == k / 2 else (k + 1) % 2 == 0 && (k + 1) / 2 == k / 2 + 1
  {
  }

  lemma {:induction false} HoldsFrame<T>(part: seq<seq<T>>, part': seq<seq<T>>, lev: nat, k: nat)
    requires Levels(part) && Levels(part') && lev <= TOP
    requires forall i :: lev <= i <= TOP ==> part[i] == part'[i]
    requires Holds(part, lev, k)
    ensures Holds(part', lev, k)
    decreases TOP - lev
  {
    if lev < TOP {
      HoldsFrame(part, part', lev + 1, k / 2);
    }
  }

  lemma {:induction false} InsertFrame<T>(cmp: (T, T) -> int, part: seq<seq<T>>, lev: nat, cur: seq<T>)
    requires Levels(part) && lev <= MAX_LIST_LENGTH_BITS && cur != []
    ensures
      var r := Insert(cmp, part, lev, cur);
      && lev <= r.slot + 1 && r.part[r.slot] != []
      && (lev <= TOP ==> lev <= r.slot)
      && (forall i :: 0 <= i < lev && i != TOP ==> r.part[i] == part[i])
      && (forall i :: r.slot < i <= TOP ==> r.part[i] == part[i])
    decreases |part| - lev
  {
    hide Merge;
    if lev < MAX_LIST_LENGTH_BITS && part[lev] != [] {
      InsertFrame(cmp, part[lev := []], lev + 1, Merge(cmp, part[lev], cur));
    }
  }

  lemma TopStep(k: nat)
    ensures (k + 1) * Pow2(TOP) == k * Pow2(TOP) + Pow2(TOP)
  {
  }

  /** At the top level, a unit is added to those that are there. */
  lemma InsertCountsTop<T>(cmp: (T, T) -> int, part: seq<seq<T>>, cur: seq<T>, k: nat)
    requires Levels(part) && |part[TOP]| == k * Pow2(TOP) && |cur| == Pow2(TOP)
    ensures |Insert(cmp, part, TOP, cur).part[TOP]| == (k + 1) * Pow2(TOP)
  {
  }

  lemma InsertStep<T>(cmp: (T, T) -> int, part: seq<seq<T>>, lev: nat, cur: seq<T>)
    requires Levels(part) && lev <= TOP
    ensures var r := Insert(cmp, part, lev, cur).part;
            r == if part[lev] == [] then part[lev := cur] else Insert(cmp, part[lev := []], lev + 1, Merge(cmp, part[lev], cur)).part
  {
    hide Merge;
  }

  /** A free level takes the unit. */
  lemma InsertCountsFree<T>(part: seq<seq<T>>, lev: nat, cur: seq<T>, k: nat)
    requires Levels(part) && lev < TOP && Holds(part, lev, k) && |cur| == Pow2(lev) && part[lev] == []
    ensures Holds(part[lev := cur], lev, k + 1)
  {
    hide Pow2, Holds;
    HoldsStep(part, lev, k);
    HoldsStep(part[lev := cur], lev, k + 1);
    Halves(k);
    HoldsFrame(part, part[lev := cur], lev + 1, k / 2);
  }

  /** An occupied level is cleared, and two units go on as one of the next level. */
  lemma InsertCountsCarry<T>(part: seq<seq<T>>, r: seq<seq<T>>, lev: nat, k: nat)
    requires Levels(part) && Levels(r) && lev < TOP && Holds(part, lev, k) && part[lev] != []
    requires r[lev] == [] && Holds(r, lev + 1, k / 2 + 1)
    ensures Holds(r, lev, k + 1)
  {
    hide Pow2, Holds;
    HoldsStep(part, lev, k);
    HoldsStep(r, lev, k + 1);
    Halves(k);
  }

  /** One more unit of 2^lev elements arrives: the counter steps from k to k + 1. */
  lemma {:induction false} InsertCounts<T>(cmp: (T, T) -> int, part: seq<seq<T>>, lev: nat, cur: seq<T>, k: nat)
    requires Levels(part) && lev <= TOP && Holds(part, lev, k) && |cur| == Pow2(lev)
    ensures Holds(Insert(cmp, part, lev, cur).part, lev, k + 1)
    decreases TOP - lev
  {
    hide Merge, Pow2, Holds, Insert;
    InsertStep(cmp, part, lev, cur);
    if lev == TOP {
      HoldsTop(part, k);
      InsertCountsTop(cmp, part, cur, k);
      HoldsTop(Insert(cmp, part, lev, cur).part, k + 1);
    } else if part[lev] == [] {
      InsertCountsFree(part, lev, cur, k);
    } else {
      var up, merged := part[lev := []], Merge(cmp, part[lev], cur);
      HoldsStep(part, lev, k);
      DoublePow2(lev);
      HoldsFrame(part, up, lev + 1, k / 2);
      InsertCounts(cmp, up, lev + 1, merged, k / 2);
      InsertFrame(cmp, up, lev + 1, merged);
      InsertCountsCarry(part, Insert(cmp, part, lev, cur).part, lev, k);
    }
  }

  /** k >> i */
  function ShiftRight(k: nat, i: nat): nat {
    if i == 0 then k else ShiftRight(k / 2, i - 1)
  }

  lemma {:induction false} HoldsAt<T>(part: seq<seq<T>>, lev: nat, k: nat, i: nat)
    requires Levels(part) && lev <= i <= TOP && Holds(part, lev, k)
    ensures i < TOP ==> |part[i]| == if ShiftRight(k, i - lev) % 2 == 1 then Pow2(i) else 0
    ensures i == TOP ==> |part[i]| == ShiftRight(k, i - lev) * Pow2(TOP)
    decreases TOP - lev
  {
    if lev < i {
      HoldsAt(part, lev + 1, k / 2, i);
    }
  }

  /** The highest occupied level tells the magnitude of k. */
  lemma {:induction false} HoldsMagnitude<T>(part: seq<seq<T>>, lev: nat, k: nat, m: nat)
    requires Levels(part) && lev <= m <= TOP && Holds(part, lev, k)
    requires part[m] != [] && forall i :: m < i <= TOP ==> part[i] == []
    ensures Pow2(m - lev) <= k
    ensures m < TOP ==> k < Pow2(m - lev + 1)
    decreases TOP - lev
  {
    if lev == TOP {
      if k == 0 {
        assert k * Pow2(TOP) == 0;
      }
    } else if lev == m {
      HoldsNothing(part, lev + 1, k / 2);
    } else {
      HoldsMagnitude(part, lev + 1, k / 2, m);
    }
  }

  lemma {:induction false} HoldsNothing<T>(part: seq<seq<T>>, lev: nat, k: nat)
    requires Levels(part) && lev <= TOP && Holds(part, lev, k)
    requires forall i :: lev <= i <= TOP ==> part[i] == []
    ensures k == 0
    decreases TOP - lev
  {
    if lev < TOP {
      HoldsNothing(part, lev + 1, k / 2);
    } else if k > 0 {
      TopStep(k - 1);
    }
  }

  lemma {:induction false} InitHoldsNothing<T>(lev: nat)
    requires lev <= TOP
    ensures Holds(Init<T>().part, lev, 0)
    decreases TOP - lev
  {
    if lev < TOP {
      InitHoldsNothing<T>(lev + 1);
    }
  }

  lemma {:induction false} RunShape<T>(cmp: (T, T) -> int, xs: seq<T>)
    ensures
      var c := Run(cmp, xs);
      && Holds(c.part, 0, |xs|)
      && (xs != [] ==> c.part[c.maxLev] != [])
      && (forall i :: c.maxLev < i <= TOP ==> c.part[i] == [])
  {
    if xs == [] {
      InitHoldsNothing<T>(0);
    } else {
      var front, last := xs[..|xs| - 1], xs[|xs| - 1];
      RunShape(cmp, front);
      InsertCounts(cmp, Run(cmp, front).part, 0, [last], |front|);
      InsertFrame(cmp, Run(cmp, front).part, 0, [last]);
      if front != [] {
        InsertKeepsMax(cmp, Run(cmp, front).part, 0, [last], Run(cmp, front).maxLev);
      }
    }
  }

  lemma RunOccupied<T>(cmp: (T, T) -> int, xs: seq<T>)
    ensures xs != [] ==> Run(cmp, xs).part[Run(cmp, xs).maxLev] != []
    ensures forall i :: Run(cmp, xs).maxLev < i <= TOP ==> Run(cmp, xs).part[i] == []
  {
    RunShape(cmp, xs);
  }

  /** An occupied level stays occupied unless the carry goes above it. */
  lemma {:induction false} InsertKeepsMax<T>(cmp: (T, T) -> int, part: seq<seq<T>>, lev: nat, cur: seq<T>, m: nat)
    requires Levels(part) && lev <= MAX_LIST_LENGTH_BITS && cur != [] && m <= TOP
    requires part[m] != []
    ensures var r := Insert(cmp, part, lev, cur); r.slot <= m ==> r.part[m] != []
    decreases |part| - lev
  {
    if lev < MAX_LIST_LENGTH_BITS && part[lev] != [] {
      var merged := Merge(cmp, part[lev], cur);
      InsertFrame(cmp, part[lev := []], lev + 1, merged);
      if lev != m {
        InsertKeepsMax(cmp, part[lev := []], lev + 1, merged, m);
      }
    }
  }

  /**
   After k elements, level i below the top is occupied exactly when bit i of k is set and then
   holds 2^i elements, and the top level holds all the rest.
   */
  lemma RunIsBinaryCounter<T>(cmp: (T, T) -> int, xs: seq<T>, i: nat)
    requires i <= TOP
    ensures
      var size, k := |Run(cmp, xs).part[i]|, |xs|;
      && (i < TOP ==> size == if ShiftRight(k, i) % 2 == 1 then Pow2(i) else 0)
      && (i == TOP ==> size == ShiftRight(k, i) * Pow2(i))
  {
    hide Holds, Run;
    RunShape(cmp, xs);
    HoldsAt(Run(cmp, xs).part, 0, |xs|, i);
  }

  /** maxLev is the highest occupied level: floor(log2 k), until the top level is reached. */
  lemma RunMaxLev<T>(cmp: (T, T) -> int, xs: seq<T>)
    requires xs != []
    ensures Run(cmp, xs).part[Run(cmp, xs).maxLev] != []
    ensures forall i :: Run(cmp, xs).maxLev < i <= TOP ==> Run(cmp, xs).part[i] == []
    ensures |xs| < Pow2(MAX_LIST_LENGTH_BITS) ==> Run(cmp, xs).maxLev == Log2(|xs|)
    ensures |xs| >= Pow2(TOP) ==> Run(cmp, xs).maxLev == TOP
  {
    hide Holds, Run, Pow2, Log2;
    RunShape(cmp, xs);
    var m := Run(cmp, xs).maxLev;
    HoldsMagnitude(Run(cmp, xs).part, 0, |xs|, m);
    if |xs| < Pow2(MAX_LIST_LENGTH_BITS) {
      Log2Unique(|xs|, m);
    }
    if m < TOP {
      Pow2Monotone(m + 1, TOP);
    }
  }

  // ---------------------------------------------------------------- sorted and stable

  ghost predicate TotalPreorder<T>(cmp: (T, T) -> int, u: set<T>) {
    && (forall a, b :: a in u && b in u ==> cmp(a, b) <= 0 || cmp(b, a) <= 0)
    && (forall a, b, c :: a in u && b in u && c in u && cmp(a, b) <= 0 && cmp(b, c) <= 0 ==> cmp(a, c) <= 0)
  }

  ghost predicate Within<T>(s: seq<T>, u: set<T>) {
    forall x :: x in s ==> x in u
  }

  /** The order a stable sort produces: by cmp, and among equivalent elements by original position. */
  ghost predicate Before<T>(cmp: (T, T) -> int, pos: T -> nat, a: T, b: T) {
    cmp(a, b) <= 0 && (cmp(b, a) <= 0 ==> pos(a) < pos(b))
  }

  ghost predicate Ascending<T>(cmp: (T, T) -> int, pos: T -> nat, s: seq<T>) {
    forall i, j :: 0 <= i < j < |s| ==> Before(cmp, pos, s[i], s[j])
  }

  ghost predicate Earlier<T>(pos: T -> nat, s: seq<T>, t: seq<T>) {
    forall x, y :: x in s && y in t ==> pos(x) < pos(y)
  }

  ghost function IndexOf<T>(xs: seq<T>, x: T): nat {
    if xs == [] || xs[0] == x then 0 else 1 + IndexOf(xs[1..], x)
  }

  /** r is a permutation of xs in which order and, between equivalents, original position increase. */
  ghost predicate IsStableSort<T>(cmp: (T, T) -> int, xs: seq<T>, r: seq<T>) {
    multiset(r) == multiset(xs) && Ascending(cmp, x => IndexOf(xs, x), r)
  }

  lemma ConsContent<T>(x: T, s: seq<T>)
    ensures multiset([x] + s) == multiset{x} + multiset(s)
  {
  }

  lemma HeadContent<T>(s: seq<T>)
    requires s != []
    ensures multiset(s) == multiset{s[0]} + multiset(s[1..])
  {
    assert s == [s[0]] + s[1..];
  }

  lemma {:induction false} MergeContent<T>(cmp: (T, T) -> int, a: seq<T>, b: seq<T>)
    ensures multiset(Merge(cmp, a, b)) == multiset(a) + multiset(b)
    decreases |a| + |b|
  {
    if a != [] && b != [] {
      if cmp(a[0], b[0]) <= 0 {
        MergeContent(cmp, a[1..], b);
        ConsContent(a[0], Merge(cmp, a[1..], b));
        HeadContent(a);
      } else {
        MergeContent(cmp, a, b[1..]);
        ConsContent(b[0], Merge(cmp, a, b[1..]));
        HeadContent(b);
      }
    }
  }

  lemma MergeMembers<T>(cmp: (T, T) -> int, a: seq<T>, b: seq<T>)
    ensures forall x :: x in Merge(cmp, a, b) ==> x in a || x in b
  {
  }

  lemma AscendingCons<T>(cmp: (T, T) -> int, pos: T -> nat, x: T, s: seq<T>)
    requires Ascending(cmp, pos, s) && forall y :: y in s ==> Before(cmp, pos, x, y)
    ensures Ascending(cmp, pos, [x] + s)
  {
  }

  lemma {:induction false} MergeAscending<T>(cmp: (T, T) -> int, pos: T -> nat, u: set<T>, a: seq<T>, b: seq<T>)
    requires TotalPreorder(cmp, u) && Within(a, u) && Within(b, u)
    requires Ascending(cmp, pos, a) && Ascending(cmp, pos, b) && Earlier(pos, a, b)
    ensures Ascending(cmp, pos, Merge(cmp, a, b))
    decreases |a| + |b|
  {
    if a != [] && b != [] {
      var a', b' := a[1..], b[1..];
      if cmp(a[0], b[0]) <= 0 {
        MergeAscending(cmp, pos, u, a', b);
        MergeMembers(cmp, a', b);
        forall y | y in Merge(cmp, a', b)
          ensures Before(cmp, pos, a[0], y)
        {
          FirstOfLeft(cmp, pos, u, a, b, y);
        }
        AscendingCons(cmp, pos, a[0], Merge(cmp, a', b));
      } else {
        MergeAscending(cmp, pos, u, a, b');
        MergeMembers(cmp, a, b');
        forall y | y in Merge(cmp, a, b')
          ensures Before(cmp, pos, b[0], y)
        {
          FirstOfRight(cmp, pos, u, a, b, y);
        }
        AscendingCons(cmp, pos, b[0], Merge(cmp, a, b'));
      }
    }
  }

  lemma FirstOfLeft<T>(cmp: (T, T) -> int, pos: T -> nat, u: set<T>, a: seq<T>, b: seq<T>, y: T)
    requires TotalPreorder(cmp, u) && Within(a, u) && Within(b, u)
    requires Ascending(cmp, pos, a) && Ascending(cmp, pos, b) && Earlier(pos, a, b)
    requires a != [] && b != [] && cmp(a[0], b[0]) <= 0
    requires y in a[1..] || y in b
    ensures Before(cmp, pos, a[0], y)
  {
  }

  lemma FirstOfRight<T>(cmp: (T, T) -> int, pos: T -> nat, u: set<T>, a: seq<T>, b: seq<T>, y: T)
    requires TotalPreorder(cmp, u) && Within(a, u) && Within(b, u)
    requires Ascending(cmp, pos, a) && Ascending(cmp, pos, b) && Earlier(pos, a, b)
    requires a != [] && b != [] && cmp(a[0], b[0]) > 0
    requires y in a || y in b[1..]
    ensures Before(cmp, pos, b[0], y)
  {
  }

  // ---------------------------------------------------------------- content and order of part[]

  ghost function Content<T>(part: seq<seq<T>>): multiset<T> {
    if part == [] then multiset{} else multiset(part[0]) + Content(part[1..])
  }

  lemma {:induction false} ContentUpdate<T>(part: seq<seq<T>>, i: nat, s: seq<T>)
    requires i < |part|
    ensures Content(part[i := s]) + multiset(part[i]) == Content(part) + multiset(s)
  {
    var part' := part[i := s];
    if i == 0 {
      assert part'[1..] == part[1..];
    } else {
      ContentUpdate(part[1..], i - 1, s);
      assert part'[1..] == part[1..][i - 1 := s];
      calc {
        Content(part') + multiset(part[i]);
        multiset(part[0]) + (Content(part'[1..]) + multiset(part[i]));
        multiset(part[0]) + (Content(part[1..]) + multiset(s));
        Content(part) + multiset(s);
      }
    }
  }

  lemma {:induction false} ContentOf<T>(part: seq<seq<T>>, i: nat, x: T)
    requires i < |part| && x in part[i]
    ensures x in Content(part)
  {
    if i > 0 {
      ContentOf(part[1..], i - 1, x);
    }
  }

  lemma {:induction false} ContentEmpty<T>(part: seq<seq<T>>)
    requires forall i :: 0 <= i < |part| ==> part[i] == []
    ensures Content(part) == multiset{}
  {
    if part != [] {
      ContentEmpty(part[1..]);
    }
  }

  lemma FillContent<T>(part: seq<seq<T>>, i: nat, s: seq<T>)
    requires i < |part| && part[i] == []
    ensures Content(part[i := s]) == Content(part) + multiset(s)
  {
    ContentUpdate(part, i, s);
  }

  lemma CarryContent<T>(cmp: (T, T) -> int, part: seq<seq<T>>, i: nat, cur: seq<T>)
    requires i < |part|
    ensures Content(part[i := []]) + multiset(Merge(cmp, part[i], cur)) == Content(part) + multiset(cur)
  {
    var up := part[i := []];
    calc {
      Content(up) + multiset(Merge(cmp, part[i], cur));
      { MergeContent(cmp, part[i], cur); }
      (Content(up) + multiset(part[i])) + multiset(cur);
      { ContentUpdate(part, i, []); }
      Content(part) + multiset(cur);
    }
  }

  lemma {:induction false} InsertContent<T>(cmp: (T, T) -> int, part: seq<seq<T>>, lev: nat, cur: seq<T>)
    requires Levels(part) && lev <= MAX_LIST_LENGTH_BITS
    requires lev == MAX_LIST_LENGTH_BITS ==> part[TOP] == []
    ensures Content(Insert(cmp, part, lev, cur).part) == Content(part) + multiset(cur)
    decreases |part| - lev
  {
    if lev == MAX_LIST_LENGTH_BITS {
      FillContent(part, TOP, cur);
    } else if part[lev] == [] {
      FillContent(part, lev, cur);
    } else {
      CarryContent(cmp, part, lev, cur);
      InsertContent(cmp, part[lev := []], lev + 1, Merge(cmp, part[lev], cur));
    }
  }

  ghost predicate Descends<T>(pos: T -> nat, part: seq<seq<T>>) {
    forall i, j :: 0 <= i < j < |part| ==> Earlier(pos, part[j], part[i])
  }

  /** Higher levels hold earlier elements, all before those of cur, and the levels below lev are empty. */
  ghost predicate Staged<T>(pos: T -> nat, part: seq<seq<T>>, lev: nat, cur: seq<T>) {
    && (forall i :: 0 <= i < lev && i < |part| ==> part[i] == [])
    && Descends(pos, part)
    && (forall i :: 0 <= i < |part| ==> Earlier(pos, part[i], cur))
  }

  lemma EarlierMerge<T>(cmp: (T, T) -> int, pos: T -> nat, s: seq<T>, a: seq<T>, b: seq<T>)
    requires Earlier(pos, s, a) && Earlier(pos, s, b)
    ensures Earlier(pos, s, Merge(cmp, a, b))
  {
  }

  lemma StagedUp<T>(cmp: (T, T) -> int, pos: T -> nat, part: seq<seq<T>>, lev: nat, cur: seq<T>)
    requires lev < |part| && Staged(pos, part, lev, cur)
    ensures Staged(pos, part[lev := []], lev + 1, Merge(cmp, part[lev], cur))
  {
    var up, merged := part[lev := []], Merge(cmp, part[lev], cur);
    forall i | 0 <= i < |up|
      ensures Earlier(pos, up[i], merged)
    {
      if i > lev {
        EarlierMerge(cmp, pos, part[i], part[lev], cur);
      }
    }
  }

  lemma {:induction false} InsertDescends<T>(cmp: (T, T) -> int, pos: T -> nat, part: seq<seq<T>>, lev: nat, cur: seq<T>)
    requires Levels(part) && lev <= MAX_LIST_LENGTH_BITS && Staged(pos, part, lev, cur)
    ensures Descends(pos, Insert(cmp, part, lev, cur).part)
    decreases |part| - lev
  {
    if lev < MAX_LIST_LENGTH_BITS && part[lev] != [] {
      StagedUp(cmp, pos, part, lev, cur);
      InsertDescends(cmp, pos, part[lev := []], lev + 1, Merge(cmp, part[lev], cur));
    }
  }

  ghost predicate AllAscending<T>(cmp: (T, T) -> int, pos: T -> nat, u: set<T>, part: seq<seq<T>>) {
    forall i :: 0 <= i < |part| ==> Within(part[i], u) && Ascending(cmp, pos, part[i])
  }

  lemma {:induction false} InsertAscending<T>(cmp: (T, T) -> int, pos: T -> nat, u: set<T>, part: seq<seq<T>>, lev: nat, cur: seq<T>)
    requires Levels(part) && lev <= MAX_LIST_LENGTH_BITS && Staged(pos, part, lev, cur)
    requires TotalPreorder(cmp, u) && AllAscending(cmp, pos, u, part)
    requires Within(cur, u) && Ascending(cmp, pos, cur)
    ensures AllAscending(cmp, pos, u, Insert(cmp, part, lev, cur).part)
    decreases |part| - lev
  {
    if lev < MAX_LIST_LENGTH_BITS && part[lev] != [] {
      StagedUp(cmp, pos, part, lev, cur);
      MergeMembers(cmp, part[lev], cur);
      MergeAscending(cmp, pos, u, part[lev], cur);
      InsertAscending(cmp, pos, u, part[lev := []], lev + 1, Merge(cmp, part[lev], cur));
    }
  }

  // ---------------------------------------------------------------- the whole run

  /** pos gives each element of xs its index. */
  ghost predicate Positions<T>(pos: T -> nat, xs: seq<T>) {
    forall i :: 0 <= i < |xs| ==> pos(xs[i]) == i
  }

  lemma {:induction false} IndexOfAt<T>(xs: seq<T>, i: nat)
    requires i < |xs| && NoDup(xs)
    ensures IndexOf(xs, xs[i]) == i
  {
    if i > 0 {
      IndexOfAt(xs[1..], i - 1);
      assert xs[1..][i - 1] == xs[i];
    }
  }

  lemma {:induction false} RunContent<T>(cmp: (T, T) -> int, xs: seq<T>)
    ensures Content(Run(cmp, xs).part) == multiset(xs)
  {
    if xs == [] {
      ContentEmpty(Init<T>().part);
    } else {
      var front, last := xs[..|xs| - 1], xs[|xs| - 1];
      RunContent(cmp, front);
      InsertContent(cmp, Run(cmp, front).part, 0, [last]);
      assert xs == front + [last];
    }
  }

  /** Every element of part[] has been consumed, so it is before the next one. */
  lemma RunBeforeNext<T>(cmp: (T, T) -> int, pos: T -> nat, xs: seq<T>, next: T)
    requires Positions(pos, xs + [next])
    ensures forall i :: 0 <= i < |Run(cmp, xs).part| ==> Earlier(pos, Run(cmp, xs).part[i], [next])
  {
    var part := Run(cmp, xs).part;
    assert pos((xs + [next])[|xs|]) == |xs|;
    forall i, x | 0 <= i < |part| && x in part[i]
      ensures pos(x) < pos(next)
    {
      ContentOf(part, i, x);
      RunContent(cmp, xs);
      var j :| 0 <= j < |xs| && xs[j] == x;
      assert (xs + [next])[j] == x;
    }
  }

  lemma {:induction false} RunDescends<T>(cmp: (T, T) -> int, pos: T -> nat, xs: seq<T>)
    requires Positions(pos, xs)
    ensures Descends(pos, Run(cmp, xs).part)
  {
    if xs != [] {
      var front, last := xs[..|xs| - 1], xs[|xs| - 1];
      assert xs == front + [last];
      RunDescends(cmp, pos, front);
      RunBeforeNext(cmp, pos, front, last);
      InsertDescends(cmp, pos, Run(cmp, front).part, 0, [last]);
    }
  }

  lemma {:induction false} RunAscending<T>(cmp: (T, T) -> int, pos: T -> nat, u: set<T>, xs: seq<T>)
    requires Positions(pos, xs) && Within(xs, u) && TotalPreorder(cmp, u)
    ensures AllAscending(cmp, pos, u, Run(cmp, xs).part)
  {
    if xs != [] {
      var front, last := xs[..|xs| - 1], xs[|xs| - 1];
      assert xs == front + [last];
      RunAscending(cmp, pos, u, front);
      RunDescends(cmp, pos, front);
      RunBeforeNext(cmp, pos, front, last);
      assert last in xs;
      InsertAscending(cmp, pos, u, Run(cmp, front).part, 0, [last]);
    }
  }

  lemma {:induction false} CollectAscending<T>(cmp: (T, T) -> int, pos: T -> nat, u: set<T>,
                                               part: seq<seq<T>>, lev: nat, maxLev: nat, list: seq<T>)
    requires Levels(part) && lev <= maxLev <= TOP
    requires TotalPreorder(cmp, u) && AllAscending(cmp, pos, u, part) && Descends(pos, part)
    requires Within(list, u) && Ascending(cmp, pos, list)
    requires forall i :: lev <= i <= maxLev ==> Earlier(pos, part[i], list)
    ensures
      var r := Collect(cmp, part, lev, maxLev, list);
      Within(r, u) && Ascending(cmp, pos, r) && Earlier(pos, part[maxLev], r)
    decreases maxLev - lev
  {
    if lev < maxLev {
      if part[lev] == [] {
        CollectAscending(cmp, pos, u, part, lev + 1, maxLev, list);
      } else {
        MergeMembers(cmp, part[lev], list);
        MergeAscending(cmp, pos, u, part[lev], list);
        forall i | lev + 1 <= i <= maxLev
          ensures Earlier(pos, part[i], Merge(cmp, part[lev], list))
        {
          EarlierMerge(cmp, pos, part[i], part[lev], list);
        }
        CollectAscending(cmp, pos, u, part, lev + 1, maxLev, Merge(cmp, part[lev], list));
      }
    }
  }

  lemma {:induction false} CollectContent<T>(cmp: (T, T) -> int, part: seq<seq<T>>, lev: nat, maxLev: nat, list: seq<T>)
    requires Levels(part) && lev <= maxLev <= TOP
    requires forall i :: maxLev < i < |part| ==> part[i] == []
    ensures multiset(part[maxLev]) + multiset(Collect(cmp, part, lev, maxLev, list))
         == Content(part[lev..]) + multiset(list)
    decreases maxLev - lev
  {
    assert part[lev..][1..] == part[lev + 1..];
    if lev == maxLev {
      ContentEmpty(part[lev + 1..]);
    } else {
      var list' := if part[lev] == [] then list else Merge(cmp, part[lev], list);
      MergeContent(cmp, part[lev], list);
      CollectContent(cmp, part, lev + 1, maxLev, list');
      assert multiset(list') == multiset(part[lev]) + multiset(list);
    }
  }

  /** The sort permutes its input, whatever cmp is. */
  lemma SortPermutes<T>(cmp: (T, T) -> int, xs: seq<T>)
    ensures multiset(Sort(cmp, xs)) == multiset(xs)
  {
    hide Merge, Collect, Content, Run;
    var c := Run(cmp, xs);
    RunOccupied(cmp, xs);
    RunContent(cmp, xs);
    CollectContent(cmp, c.part, 0, c.maxLev, []);
    assert c.part[0..] == c.part;
    MergeContent(cmp, c.part[c.maxLev], Collect(cmp, c.part, 0, c.maxLev, []));
  }

  /** For every list of distinct nodes and every total preorder, the sort is the stable sort. */
  lemma SortIsStable<T>(cmp: (T, T) -> int, xs: seq<T>)
    requires NoDup(xs) && TotalPreorder(cmp, set x | x in xs)
    ensures IsStableSort(cmp, xs, Sort(cmp, xs))
  {
    var c, u, pos := Run(cmp, xs), (set x | x in xs), x => IndexOf(xs, x);
    forall i | 0 <= i < |xs|
      ensures pos(xs[i]) == i
    {
      IndexOfAt(xs, i);
    }
    RunAscending(cmp, pos, u, xs);
    RunDescends(cmp, pos, xs);
    CollectAscending(cmp, pos, u, c.part, 0, c.maxLev, []);
    MergeAscending(cmp, pos, u, c.part[c.maxLev], Collect(cmp, c.part, 0, c.maxLev, []));
    SortPermutes(cmp, xs);
  }

  lemma SameFirst<T>(cmp: (T, T) -> int, pos: T -> nat, r: seq<T>, q: seq<T>)
    requires Ascending(cmp, pos, r) && Ascending(cmp, pos, q)
    requires r != [] && q != [] && r[0] in q && q[0] in r
    ensures r[0] == q[0]
  {
  }

  lemma SameRest<T>(x: T, a: multiset<T>, b: multiset<T>)
    requires multiset{x} + a == multiset{x} + b
    ensures a == b
  {
    assert a == (multiset{x} + a) - multiset{x};
    assert b == (multiset{x} + b) - multiset{x};
  }

  lemma {:induction false} AscendingUnique<T>(cmp: (T, T) -> int, pos: T -> nat, r: seq<T>, q: seq<T>)
    requires Ascending(cmp, pos, r) && Ascending(cmp, pos, q) && multiset(r) == multiset(q)
    ensures r == q
  {
    hide Before;
    assert |r| == |multiset(r)| && |q| == |multiset(q)|;
    if r != [] {
      var r', q' := r[1..], q[1..];
      assert r[0] in multiset(q) && q[0] in multiset(r);
      SameFirst(cmp, pos, r, q);
      HeadContent(r);
      HeadContent(q);
      SameRest(r[0], multiset(r'), multiset(q'));
      assert r == [r[0]] + r' && q == [r[0]] + q';
      AscendingUnique(cmp, pos, r', q');
    }
  }

  /** There is only one stable sort, so IsStableSort says all there is to say about the result. */
  lemma StableSortUnique<T>(cmp: (T, T) -> int, xs: seq<T>, r: seq<T>)
    requires NoDup(xs) && TotalPreorder(cmp, set x | x in xs)
    ensures IsStableSort(cmp, xs, r) <==> r == Sort(cmp, xs)
  {
    SortIsStable(cmp, xs);
    if IsStableSort(cmp, xs, r) {
      AscendingUnique(cmp, x => IndexOf(xs, x), r, Sort(cmp, xs));
    }
  }

  lemma SortEmpty<T>(cmp: (T, T) -> int)
    ensures Sort(cmp, []) == [] && SortCalls(cmp, []) == 0
  {
  }

  // ---------------------------------------------------------------- the number of comparisons

  /** Each element of level i of part[lev..] has been charged for i merges. */
  ghost function Charged<T>(part: seq<seq<T>>, lev: nat): nat
    requires lev <= |part|
    decreases |part| - lev
  {
    if lev == |part| then 0 else lev * |part[lev]| + Charged(part, lev + 1)
  }

  lemma {:induction false} ChargedUpdate<T>(part: seq<seq<T>>, lev: nat, i: nat, s: seq<T>)
    requires lev <= |part| && i < |part|
    ensures Charged(part[i := s], lev) == Charged(part, lev) + if lev <= i then i * |s| - i * |part[i]| else 0
    decreases |part| - lev
  {
    if lev < |part| {
      ChargedUpdate(part, lev + 1, i, s);
    }
  }

  lemma ChargeOneMore(lev: nat, p: nat, c: nat)
    ensures (lev + 1) * (p + c) == lev * p + lev * c + p + c
  {
  }

  /** With k units of 2^lev elements there, one more is carried to the top level and finds it occupied. */
  ghost predicate Spills(k: nat, lev: nat)
    requires lev <= TOP
    decreases TOP - lev
  {
    if lev == TOP then k > 0 else k % 2 == 1 && Spills(k / 2, lev + 1)
  }

  lemma UnitsUp(k: nat, p: nat)
    requires k % 2 == 1
    ensures (k / 2 + 1) * (2 * p) == (k + 1) * p
  {
    var h := k / 2;
    assert k + 1 == 2 * (h + 1);
    TwiceTimes(h + 1, p);
  }

  lemma TwiceTimes(h: nat, p: nat)
    ensures h * (2 * p) == 2 * h * p
  {
  }

  lemma UnitMore(k: nat, p: nat)
    ensures k * p + p == (k + 1) * p
  {
  }

  /** A carry pays for its merges, except for one into an occupied top level, which costs at most all there is by then. */
  lemma {:induction false} InsertCost<T>(cmp: (T, T) -> int, part: seq<seq<T>>, lev: nat, cur: seq<T>, k: nat)
    requires Levels(part) && lev <= TOP && Holds(part, lev, k) && |cur| == Pow2(lev)
    ensures
      var r := Insert(cmp, part, lev, cur);
      r.calls + Charged(part, 0) + lev * |cur| <= Charged(r.part, 0) + if Spills(k, lev) then (k + 1) * Pow2(lev) else 0
    decreases TOP - lev
  {
    hide Pow2, Holds, Charged, Merge, MergeCalls;
    if part[lev] == [] {
      ChargedUpdate(part, 0, lev, cur);
    } else if lev == TOP {
      InsertCostTop(cmp, part, cur, k);
    } else {
      HoldsStep(part, lev, k);
      var up, merged := part[lev := []], Merge(cmp, part[lev], cur);
      DoublePow2(lev);
      UnitsUp(k, Pow2(lev));
      HoldsFrame(part, up, lev + 1, k / 2);
      InsertCost(cmp, up, lev + 1, merged, k / 2);
      ChargedUpdate(part, 0, lev, []);
      ChargeOneMore(lev, |part[lev]|, |cur|);
    }
  }

  lemma InsertCostTop<T>(cmp: (T, T) -> int, part: seq<seq<T>>, cur: seq<T>, k: nat)
    requires Levels(part) && Holds(part, TOP, k) && |cur| == Pow2(TOP) && part[TOP] != []
    ensures
      var r := Insert(cmp, part, TOP, cur);
      r.calls + Charged(part, 0) + TOP * |cur| <= Charged(r.part, 0) + (if Spills(k, TOP) then (k + 1) * Pow2(TOP) else 0)
  {
    hide Pow2, Charged, Merge, MergeCalls;
    var merged := Merge(cmp, part[TOP], cur);
    assert Insert(cmp, part[TOP := []], MAX_LIST_LENGTH_BITS, merged).part == part[TOP := merged];
    ChargedUpdate(part, 0, TOP, merged);
    UnitMore(k, Pow2(TOP));
    assert k > 0;
  }

  /** What the merges into an occupied top level may have cost after n elements. */
  ghost function Overflow(n: nat): nat {
    if n == 0 then 0 else Overflow(n - 1) + if Spills(n - 1, 0) then n else 0
  }

  /** A spill makes the top count k >> TOP one more. */
  lemma {:induction false} SpillsCarry(k: nat, lev: nat)
    requires lev <= TOP && Spills(k, lev)
    ensures ShiftRight(k + 1, TOP - lev) == ShiftRight(k, TOP - lev) + 1
    decreases TOP - lev
  {
    if lev < TOP { SpillsCarry(k / 2, lev + 1); }
  }

  lemma {:induction false} ShiftGrows(k: nat, i: nat)
    ensures ShiftRight(k, i) <= ShiftRight(k + 1, i)
  {
    if i > 0 && (k + 1) / 2 != k / 2 { ShiftGrows(k / 2, i - 1); }
  }

  lemma {:induction false} NoSpill(k: nat, lev: nat)
    requires lev <= TOP && k + 1 < Pow2(MAX_LIST_LENGTH_BITS - lev)
    ensures !Spills(k, lev)
    decreases TOP - lev
  {
    if lev < TOP && k % 2 == 1 { NoSpill(k / 2, lev + 1); }
  }

  /** There are no more spills than full units of 2^19 elements, and each costs at most n. */
  lemma {:induction false} OverflowBound(n: nat)
    ensures Overflow(n) <= n * ShiftRight(n, TOP)
    ensures n < Pow2(MAX_LIST_LENGTH_BITS) ==> Overflow(n) == 0
  {
    hide ShiftRight, Pow2, Spills;
    if n > 0 {
      OverflowBound(n - 1);
      ShiftGrows(n - 1, TOP);
      if Spills(n - 1, 0) { SpillsCarry(n - 1, 0); }
      if n < Pow2(MAX_LIST_LENGTH_BITS) { NoSpill(n - 1, 0); }
      OneMoreSpill(n, ShiftRight(n - 1, TOP), ShiftRight(n, TOP));
    }
  }

  lemma OneMoreSpill(n: nat, u: nat, v: nat)
    requires n > 0 && u <= v
    ensures (n - 1) * u <= n * v
    ensures v == u + 1 ==> (n - 1) * u + n <= n * v
  {
    ProductGrows(n - 1, n, u, v);
    if v == u + 1 {
      assert n * v == n * u + n;
      ProductGrows(n - 1, n, u, u);
    }
  }

  lemma ProductGrows(a: nat, b: nat, u: nat, v: nat)
    requires a <= b && u <= v
    ensures a * u <= b * v
  {
    assert b * v - a * u == (b - a) * v + a * (v - u);
    assert (b - a) * v >= 0 && a * (v - u) >= 0;
  }

  lemma {:induction false} RunCost<T>(cmp: (T, T) -> int, xs: seq<T>)
    ensures Run(cmp, xs).calls <= Charged(Run(cmp, xs).part, 0) + Overflow(|xs|)
  {
    hide Insert, Charged, Holds, Spills;
    if xs != [] {
      var front, last := xs[..|xs| - 1], xs[|xs| - 1];
      RunCost(cmp, front);
      RunShape(cmp, front);
      InsertCost(cmp, Run(cmp, front).part, 0, [last], |front|);
    }
  }

  ghost function Total<T>(part: seq<seq<T>>, lev: nat): nat
    requires lev <= |part|
    decreases |part| - lev
  {
    if lev == |part| then 0 else |part[lev]| + Total(part, lev + 1)
  }

  /** Every level pays for the merges it takes part in on the way up to maxLev. */
  lemma {:induction false} CollectCost<T>(cmp: (T, T) -> int, part: seq<seq<T>>, lev: nat, maxLev: nat, list: seq<T>)
    requires Levels(part) && lev <= maxLev <= TOP
    requires forall i :: maxLev < i < |part| ==> part[i] == []
    ensures CollectCalls(cmp, part, lev, maxLev, list) + Charged(part, lev)
         <= maxLev * Total(part, lev) + (maxLev - lev) * |list|
    decreases maxLev - lev
  {
    if lev == maxLev {
      NothingAbove(part, maxLev + 1);
    } else {
      var list' := if part[lev] == [] then list else Merge(cmp, part[lev], list);
      CollectCost(cmp, part, lev + 1, maxLev, list');
      CollectStep(maxLev, lev, |part[lev]|, |list|, Total(part, lev + 1));
    }
  }

  lemma CollectStep(m: nat, lev: nat, p: nat, l: nat, t: nat)
    requires lev < m
    ensures p + l + lev * p + m * t + (m - lev - 1) * (p + l) == m * (p + t) + (m - lev) * l
    ensures m * t + (m - lev - 1) * l <= m * t + (m - lev) * l
  {
  }

  lemma {:induction false} NothingAbove<T>(part: seq<seq<T>>, lev: nat)
    requires lev <= |part| && forall i :: lev <= i < |part| ==> part[i] == []
    ensures Charged(part, lev) == 0 && Total(part, lev) == 0
    decreases |part| - lev
  {
    if lev < |part| {
      NothingAbove(part, lev + 1);
    }
  }

  lemma {:induction false} TotalIsContent<T>(part: seq<seq<T>>, lev: nat)
    requires lev <= |part|
    ensures Total(part, lev) == |Content(part[lev..])|
    decreases |part| - lev
  {
    if lev < |part| {
      TotalIsContent(part, lev + 1);
      assert part[lev..][1..] == part[lev + 1..];
    }
  }

  lemma RunTotal<T>(cmp: (T, T) -> int, xs: seq<T>)
    ensures Total(Run(cmp, xs).part, 0) == |xs|
  {
    TotalIsContent(Run(cmp, xs).part, 0);
    assert Run(cmp, xs).part[0..] == Run(cmp, xs).part;
    RunContent(cmp, xs);
  }

  lemma CollectAll<T>(cmp: (T, T) -> int, c: Counter<T>, n: nat, extra: nat, lev: nat, list: seq<T>)
    requires CounterOk(c) && lev <= c.maxLev && list == [] && Total(c.part, lev) == n
    requires forall i :: c.maxLev < i <= TOP ==> c.part[i] == []
    requires c.calls <= Charged(c.part, lev) + extra
    ensures c.calls + CollectCalls(cmp, c.part, lev, c.maxLev, list) <= c.maxLev * n + extra
  {
    CollectCost(cmp, c.part, lev, c.maxLev, list);
    assert (c.maxLev - lev) * |list| == 0;
  }

  /**
   O(n log n), with the constant: fewer than 2^20 nodes cost at most n * (floor(log2 n) + 1) calls. For
   more, each full unit of 2^19 nodes may cost n calls on top of 20 * n.
   */
  lemma SortCost<T>(cmp: (T, T) -> int, xs: seq<T>)
    ensures |xs| < Pow2(MAX_LIST_LENGTH_BITS) ==> SortCalls(cmp, xs) <= Log2(|xs|) * |xs| + |xs|
    ensures SortCalls(cmp, xs) <= TOP * |xs| + |xs| + |xs| * ShiftRight(|xs|, TOP)
  {
    hide Run, Charged, Collect, CollectCalls, Pow2, Log2, ShiftRight, Overflow;
    if xs != [] {
      var n, m := |xs|, Run(cmp, xs).maxLev;
      assert n < Pow2(MAX_LIST_LENGTH_BITS) ==> m == Log2(n) by {
        RunMaxLev(cmp, xs);
      }
      RunOccupied(cmp, xs);
      RunCost(cmp, xs);
      RunTotal(cmp, xs);
      CollectAll(cmp, Run(cmp, xs), n, Overflow(n), 0, []);
      OverflowBound(n);
      ProductGrows(m, TOP, n, n);
    }
  }
}
