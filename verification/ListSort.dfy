/**
 list_sort on the heap: circular doubly linked lists with a sentinel head, relinked in place.
 The methods are proved to compute the functions of module MergeSort, whatever cmp returns.
 */
module ListSort {
  import opened MergeSort
  import opened Powers
  import opened Sequences

  /** struct list_head */
  class ListHead {
    var next: ListHead?
    var prev: ListHead?

    constructor () {
      next, prev := null, null;
    }
  }

  /** p is a null-terminated chain through the nodes of s; prev links are not maintained. */
  ghost predicate Chain(p: ListHead?, s: seq<ListHead>)
    reads s`next
  {
    && p == (if s == [] then null else s[0])
    && forall i {:trigger s[i].next} :: 0 <= i < |s| ==> s[i].next == if i + 1 < |s| then s[i + 1] else null
  }

  /** Consecutive nodes of s are linked forwards. */
  ghost predicate Linked(s: seq<ListHead>)
    reads (if s == [] then [] else s[..|s| - 1])`next
  {
    forall i {:trigger s[i].next} :: 0 <= i < |s| - 1 ==> s[i].next == s[i + 1]
  }

  /** Consecutive nodes of s are linked backwards. */
  ghost predicate BackLinked(s: seq<ListHead>)
    reads (if s == [] then [] else s[1..])`prev
  {
    forall i {:trigger s[i].prev} :: 0 < i < |s| ==> s[i].prev == s[i - 1]
  }

  /** A well-formed list: head and the nodes of s form a circle in both directions. */
  ghost predicate Ring(head: ListHead, s: seq<ListHead>)
    reads {head}, s
  {
    var ring := [head] + s;
    && NoDup(ring)
    && Linked(ring) && BackLinked(ring)
    && ring[|s|].next == head && head.prev == ring[|s|]
  }

  lemma ChainTail(p: ListHead, s: seq<ListHead>)
    requires Chain(p, s)
    ensures Chain(p.next, s[1..])
  {
  }

  lemma ChainJoin(d: seq<ListHead>, s: seq<ListHead>)
    requires d != [] && Linked(d) && Chain(d[|d| - 1].next, s)
    ensures Chain(d[0], d + s)
  {
  }

  ghost predicate Among(s: seq<ListHead>, nodes: set<ListHead>) {
    forall i :: 0 <= i < |s| ==> s[i] in nodes
  }

  /** No node is in two places of d, a and b. */
  ghost predicate Apart<T>(d: seq<T>, a: seq<T>, b: seq<T>) {
    && NoDup(d) && NoDup(a) && NoDup(b)
    && (forall i, j :: 0 <= i < |d| && 0 <= j < |a| ==> d[i] != a[j])
    && (forall i, j :: 0 <= i < |d| && 0 <= j < |b| ==> d[i] != b[j])
    && (forall i, j :: 0 <= i < |a| && 0 <= j < |b| ==> a[i] != b[j])
  }

  lemma ApartLeft<T>(d: seq<T>, a: seq<T>, b: seq<T>)
    requires a != [] && Apart(d, a, b)
    ensures Apart(d + [a[0]], a[1..], b)
  {
  }

  lemma ApartRight<T>(d: seq<T>, a: seq<T>, b: seq<T>)
    requires b != [] && Apart(d, a, b)
    ensures Apart(d + [b[0]], a, b[1..])
  {
  }

  lemma LastApart<T>(d: seq<T>, a: seq<T>, b: seq<T>)
    requires d != [] && Apart(d, a, b)
    ensures d[|d| - 1] !in d[..|d| - 1] && d[|d| - 1] !in a && d[|d| - 1] !in b
  {
  }

  lemma FirstApart<T>(d: seq<T>, a: seq<T>, b: seq<T>)
    requires d != [] && Apart(d, a, b)
    ensures a != [] ==> a[0] !in d[1..]
    ensures b != [] ==> b[0] !in d[1..]
  {
  }

  lemma LinkedSnoc(d: seq<ListHead>, x: ListHead)
    requires d != [] && Linked(d) && d[|d| - 1].next == x
    ensures Linked(d + [x])
  {
  }

  lemma Concat<T>(a: seq<T>, b: seq<T>, c: seq<T>)
    ensures a + (b + c) == a + b + c
  {
  }

  lemma TakeLeft<T>(cmp: (T, T) -> int, out: seq<T>, a: seq<T>, b: seq<T>)
    requires a != [] && b != [] && cmp(a[0], b[0]) <= 0
    ensures out + Merge(cmp, a, b) == out + [a[0]] + Merge(cmp, a[1..], b)
    ensures MergeCalls(cmp, a, b) == 1 + MergeCalls(cmp, a[1..], b)
  {
    assert Merge(cmp, a, b) == [a[0]] + Merge(cmp, a[1..], b);
    Concat(out, [a[0]], Merge(cmp, a[1..], b));
  }

  lemma TakeRight<T>(cmp: (T, T) -> int, out: seq<T>, a: seq<T>, b: seq<T>)
    requires a != [] && b != [] && cmp(a[0], b[0]) > 0
    ensures out + Merge(cmp, a, b) == out + [b[0]] + Merge(cmp, a, b[1..])
    ensures MergeCalls(cmp, a, b) == 1 + MergeCalls(cmp, a, b[1..])
  {
  }

  /** With one side used up, nothing is left to compare. */
  lemma MergeOne<T>(cmp: (T, T) -> int, a: seq<T>, b: seq<T>)
    requires a == [] || b == []
    ensures Merge(cmp, a, b) == (if a == [] then b else a) && MergeCalls(cmp, a, b) == 0
  {
  }

  lemma Snoc<T>(h: T, s: seq<T>, x: T)
    ensures [h] + s + [x] == [h] + (s + [x])
  {
  }

  lemma Uncons<T>(h: T, s: seq<T>, t: seq<T>)
    ensures ([h] + s + t)[1..] == s + t
  {
  }

  /** The nodes of done are linked up to tail, and a and b are what is left to merge. */
  ghost predicate Merging(done: seq<ListHead>, tail: ListHead, a: ListHead?, ra: seq<ListHead>, b: ListHead?, rb: seq<ListHead>)
    requires done != []
    reads done[..|done| - 1]`next, ra`next, rb`next
  {
    && tail == done[|done| - 1] && Linked(done)
    && Chain(a, ra) && Chain(b, rb) && Apart(done, ra, rb)
  }

  lemma MergingStart(head: ListHead, a: ListHead?, sa: seq<ListHead>, b: ListHead?, sb: seq<ListHead>)
    requires Chain(a, sa) && Chain(b, sb) && Apart([], sa, sb) && head !in sa && head !in sb
    ensures Merging([head] + [], head, a, sa, b, sb)
  {
  }

  lemma MergingLeft(head: ListHead, out: seq<ListHead>, tail: ListHead,
                     a: ListHead, ra: seq<ListHead>, b: ListHead?, rb: seq<ListHead>)
    requires Merging([head] + out, tail, a, ra, b, rb) && tail.next == a
    ensures Merging([head] + (out + [a]), a, a.next, ra[1..], b, rb)
  {
    ApartLeft([head] + out, ra, rb);
    LinkedSnoc([head] + out, a);
    ChainTail(a, ra);
    Snoc(head, out, a);
  }

  lemma MergingRight(head: ListHead, out: seq<ListHead>, tail: ListHead,
                      a: ListHead, ra: seq<ListHead>, b: ListHead, rb: seq<ListHead>)
    requires Merging([head] + out, tail, a, ra, b, rb) && tail.next == b
    ensures Merging([head] + (out + [b]), b, a, ra, b.next, rb[1..])
  {
    ApartRight([head] + out, ra, rb);
    LinkedSnoc([head] + out, b);
    ChainTail(b, rb);
    Snoc(head, out, b);
  }

  lemma MergingEnd(cmp: (ListHead, ListHead) -> int, head: ListHead, out: seq<ListHead>, tail: ListHead,
                   a: ListHead?, ra: seq<ListHead>, b: ListHead?, rb: seq<ListHead>)
    requires Merging([head] + out, tail, a, ra, b, rb) && (a == null || b == null)
    requires tail.next == if a != null then a else b
    ensures Chain(head.next, out + Merge(cmp, ra, rb))
  {
    ChainJoin([head] + out, Merge(cmp, ra, rb));
    ChainTail(head, [head] + out + Merge(cmp, ra, rb));
    Uncons(head, out, Merge(cmp, ra, rb));
  }

  /** One step of merge: x, the first of a or of b, follows tail. */
  method LinkNext(tail: ListHead, x: ListHead, ghost head: ListHead, ghost out: seq<ListHead>,
                  ghost a: ListHead, ghost ra: seq<ListHead>, ghost b: ListHead, ghost rb: seq<ListHead>)
    requires Merging([head] + out, tail, a, ra, b, rb) && (x == a || x == b)
    modifies tail`next
    ensures tail.next == x
    ensures x == a ==> Merging([head] + (out + [x]), x, x.next, ra[1..], b, rb)
    ensures x == b ==> Merging([head] + (out + [x]), x, a, ra, x.next, rb[1..])
  {
    LastApart([head] + out, ra, rb);
    tail.next := x;
    if x == a {
      MergingLeft(head, out, tail, a, ra, b, rb);
    } else {
      MergingRight(head, out, tail, a, ra, b, rb);
    }
  }

  /** tail->next = a ? : b, at the end of merge */
  method LinkLast(tail: ListHead, a: ListHead?, b: ListHead?, head: ListHead, cmp: (ListHead, ListHead) -> int,
                  ghost out: seq<ListHead>, ghost ra: seq<ListHead>, ghost rb: seq<ListHead>)
    requires Merging([head] + out, tail, a, ra, b, rb) && (a == null || b == null)
    modifies tail`next
    ensures Chain(head.next, out + Merge(cmp, ra, rb))
  {
    LastApart([head] + out, ra, rb);
    tail.next := if a != null then a else b;
    MergingEnd(cmp, head, out, tail, a, ra, b, rb);
  }

  lemma NoneEmpty(done: seq<ListHead>, tail: ListHead, a: ListHead?, ra: seq<ListHead>, b: ListHead?, rb: seq<ListHead>)
    requires done != [] && Merging(done, tail, a, ra, b, rb)
    ensures (a == null <==> ra == []) && (b == null <==> rb == [])
    ensures (a != null ==> ra[0] == a) && (b != null ==> rb[0] == b)
  {
  }

  /** merge: null-terminated in, null-terminated out; the dummy head is on the stack. */
  method MergeChains(cmp: (ListHead, ListHead) -> int, a0: ListHead?, b0: ListHead?,
                     ghost sa: seq<ListHead>, ghost sb: seq<ListHead>, ghost nodes: set<ListHead>)
    returns (r: ListHead?, ghost calls: nat)
    requires Chain(a0, sa) && Chain(b0, sb) && Apart([], sa, sb) && Among(sa, nodes) && Among(sb, nodes)
    modifies nodes`next
    ensures Chain(r, Merge(cmp, sa, sb))
    ensures calls == MergeCalls(cmp, sa, sb)
  {
    hide Merge, MergeCalls, Apart, Chain, Merging;
    var a, b := a0, b0;
    var head := new ListHead();
    var tail: ListHead := head;
    ghost var out: seq<ListHead>, ra, rb := [], sa, sb;
    calls := 0;
    ghost var all, total := Merge(cmp, sa, sb), MergeCalls(cmp, sa, sb);
    MergingStart(head, a, sa, b, sb);
    while a != null && b != null
      invariant Merging([head] + out, tail, a, ra, b, rb)
      invariant (tail == head || tail in nodes) && Among(ra, nodes) && Among(rb, nodes)
      invariant out + Merge(cmp, ra, rb) == all
      invariant calls + MergeCalls(cmp, ra, rb) == total
      decreases |ra| + |rb|
    {
      NoneEmpty([head] + out, tail, a, ra, b, rb);
      if cmp(a, b) <= 0 {
        LinkNext(tail, a, head, out, a, ra, b, rb);
        TakeLeft(cmp, out, ra, rb);
        out, ra := out + [ra[0]], ra[1..];
        a := a.next;
      } else {
        LinkNext(tail, b, head, out, a, ra, b, rb);
        TakeRight(cmp, out, ra, rb);
        out, rb := out + [rb[0]], rb[1..];
        b := b.next;
      }
      calls := calls + 1;
      tail := tail.next;
    }
    NoneEmpty([head] + out, tail, a, ra, b, rb);
    MergeOne(cmp, ra, rb);
    LinkLast(tail, a, b, head, cmp, out, ra, rb);
    r := head.next;
  }

  lemma BackSnoc(d: seq<ListHead>, x: ListHead)
    requires d != [] && BackLinked(d) && x.prev == d[|d| - 1]
    ensures BackLinked(d + [x])
  {
  }

  /** The nodes of done are linked both ways up to tail. */
  ghost predicate Restoring(head: ListHead, out: seq<ListHead>, tail: ListHead,
                            a: ListHead?, ra: seq<ListHead>, b: ListHead?, rb: seq<ListHead>)
    reads ([head] + out)[..|out|]`next, ra`next, rb`next, out`prev
  {
    Merging([head] + out, tail, a, ra, b, rb) && BackLinked([head] + out)
  }

  lemma RestoringLeft(head: ListHead, out: seq<ListHead>, tail: ListHead,
                      a: ListHead, ra: seq<ListHead>, b: ListHead?, rb: seq<ListHead>)
    requires Restoring(head, out, tail, a, ra, b, rb) && tail.next == a && a.prev == tail
    ensures Restoring(head, out + [a], a, a.next, ra[1..], b, rb)
  {
    MergingLeft(head, out, tail, a, ra, b, rb);
    BackSnoc([head] + out, a);
    Snoc(head, out, a);
  }

  lemma RestoringRight(head: ListHead, out: seq<ListHead>, tail: ListHead,
                       a: ListHead, ra: seq<ListHead>, b: ListHead, rb: seq<ListHead>)
    requires Restoring(head, out, tail, a, ra, b, rb) && tail.next == b && b.prev == tail
    ensures Restoring(head, out + [b], b, a, ra, b.next, rb[1..])
  {
    MergingRight(head, out, tail, a, ra, b, rb);
    BackSnoc([head] + out, b);
    Snoc(head, out, b);
  }

  lemma Shift<T>(s: seq<T>, t: seq<T>)
    requires t != []
    ensures s + t == s + [t[0]] + t[1..]
  {
  }

  lemma HeadApart<T>(h: T, s: seq<T>)
    requires NoDup([h] + s)
    ensures h !in s && h !in ([h] + s)[1..]
  {
    assert ([h] + s)[1..] == s;
    assert forall i :: 0 <= i < |s| ==> ([h] + s)[0] != ([h] + s)[i + 1] == s[i];
  }

  lemma RingClosed(head: ListHead, out: seq<ListHead>, tail: ListHead)
    requires Restoring(head, out, tail, null, [], null, []) && tail.next == head && head.prev == tail
    ensures Ring(head, out)
  {
  }

  /** tail->next->prev = tail */
  method LinkPrev(tail: ListHead, ghost head: ListHead, ghost out: seq<ListHead>, ghost rest: seq<ListHead>)
    requires tail.next != null && Restoring(head, out, tail, tail.next, rest, null, [])
    modifies tail.next`prev
    ensures Restoring(head, out + [rest[0]], tail.next, tail.next.next, rest[1..], null, [])
  {
    FirstApart([head] + out, rest, []);
    tail.next.prev := tail;
    RestoringLeft(head, out, tail, tail.next, rest, null, []);
  }

  /** tail->next = head; head->prev = tail */
  method CloseRing(head: ListHead, tail: ListHead, ghost out: seq<ListHead>)
    requires Restoring(head, out, tail, null, [], null, [])
    modifies tail`next, head`prev
    ensures Ring(head, out)
  {
    LastApart([head] + out, [], []);
    HeadApart(head, out);
    tail.next := head;
    head.prev := tail;
    RingClosed(head, out, tail);
  }

  /** tail->next = a ? : b, where a or b is used up but not both */
  method LinkRemaining(tail: ListHead, a: ListHead?, b: ListHead?, ghost head: ListHead, ghost out: seq<ListHead>,
                       ghost ra: seq<ListHead>, ghost rb: seq<ListHead>)
    requires Restoring(head, out, tail, a, ra, b, rb) && (a == null || b == null)
    modifies tail`next
    ensures Restoring(head, out, tail, tail.next, if a != null then ra else rb, null, [])
  {
    LastApart([head] + out, ra, rb);
    tail.next := if a != null then a else b;
  }

  /** The end of merge_and_restore_back_links: the remaining prev links, and the circle closed. */
  method RestoreRest(cmp: (ListHead, ListHead) -> int, head: ListHead, tail0: ListHead,
                     ghost front: seq<ListHead>, ghost back: seq<ListHead>, ghost nodes: set<ListHead>)
    returns (ghost calls: nat)
    requires Restoring(head, front, tail0, tail0.next, back, null, []) && back != []
    requires Among(back, nodes) && (tail0 == head || tail0 in nodes)
    modifies head, nodes
    ensures Ring(head, front + back)
    ensures calls == |back|
  {
    var tail: ListHead := tail0;
    ghost var out, rest := front, back;
    calls := 0;
    assert tail.next != null;  // so the do-while may be written as a while
    while tail.next != null
      invariant Restoring(head, out, tail, tail.next, rest, null, [])
      invariant (tail == head || tail in nodes) && Among(rest, nodes)
      invariant out + rest == front + back
      invariant calls + |rest| == |back|
      decreases |rest|
    {
      var unneeded := cmp(tail.next, tail.next);
      calls := calls + 1;
      Shift(out, rest);
      LinkPrev(tail, head, out, rest);
      out, rest := out + [rest[0]], rest[1..];
      tail := tail.next;
    }
    assert out == front + back;
    CloseRing(head, tail, out);
  }

  /** One step of merge_and_restore_back_links: x, the first of a or of b, follows tail. */
  method LinkBoth(tail: ListHead, x: ListHead, ghost head: ListHead, ghost out: seq<ListHead>,
                  ghost a: ListHead, ghost ra: seq<ListHead>, ghost b: ListHead, ghost rb: seq<ListHead>)
    requires Restoring(head, out, tail, a, ra, b, rb) && (x == a || x == b)
    modifies tail`next, x`prev
    ensures tail.next == x
    ensures x == a ==> Restoring(head, out + [x], x, x.next, ra[1..], b, rb)
    ensures x == b ==> Restoring(head, out + [x], x, a, ra, x.next, rb[1..])
  {
    LastApart([head] + out, ra, rb);
    FirstApart([head] + out, ra, rb);
    tail.next := x;
    x.prev := tail;
    if x == a {
      RestoringLeft(head, out, tail, a, ra, b, rb);
    } else {
      RestoringRight(head, out, tail, a, ra, b, rb);
    }
  }

  lemma HeadFirst(head: ListHead, a: seq<ListHead>, b: seq<ListHead>)
    requires Apart([head], a, b)
    ensures Apart([], a, b) && head !in a && head !in b && BackLinked([head] + [])
  {
    assert [head][0] == head;
  }

  /**
   merge_and_restore_back_links: the last merge also makes the list circular and doubly linked
   again. There is at least one node to merge, so the do-while never meets a null.
   */
  method MergeAndRestoreBackLinks(cmp: (ListHead, ListHead) -> int, head: ListHead, a0: ListHead?, b0: ListHead?,
                                  ghost sa: seq<ListHead>, ghost sb: seq<ListHead>, ghost nodes: set<ListHead>)
    returns (ghost calls: nat)
    requires Chain(a0, sa) && Chain(b0, sb) && Apart([head], sa, sb) && Among(sa, nodes) && Among(sb, nodes)
    requires a0 != null || b0 != null
    modifies head, nodes
    ensures Ring(head, Merge(cmp, sa, sb))
    ensures calls == |sa| + |sb|
  {
    hide Merge, MergeCalls, Apart, Chain, Merging, BackLinked;
    var a, b := a0, b0;
    var tail: ListHead := head;
    ghost var out: seq<ListHead>, ra, rb := [], sa, sb;
    ghost var all := Merge(cmp, sa, sb);
    calls := 0;
    HeadFirst(head, sa, sb);
    LastApart([head], sa, sb);
    MergingStart(head, a, sa, b, sb);
    NoneEmpty([head] + out, tail, a, ra, b, rb);
    while a != null && b != null
      invariant Restoring(head, out, tail, a, ra, b, rb)
      invariant (tail == head || tail in nodes) && Among(ra, nodes) && Among(rb, nodes)
      invariant out + Merge(cmp, ra, rb) == all
      invariant calls == |out| && (ra != [] || rb != [])
      decreases |ra| + |rb|
    {
      NoneEmpty([head] + out, tail, a, ra, b, rb);
      if cmp(a, b) <= 0 {
        LinkBoth(tail, a, head, out, a, ra, b, rb);
        TakeLeft(cmp, out, ra, rb);
        out, ra := out + [ra[0]], ra[1..];
        a := a.next;
      } else {
        LinkBoth(tail, b, head, out, a, ra, b, rb);
        TakeRight(cmp, out, ra, rb);
        out, rb := out + [rb[0]], rb[1..];
        b := b.next;
      }
      calls := calls + 1;
      tail := tail.next;
    }
    NoneEmpty([head] + out, tail, a, ra, b, rb);
    MergeOne(cmp, ra, rb);
    LinkRemaining(tail, a, b, head, out, ra, rb);
    ghost var more := RestoreRest(cmp, head, tail, out, if a != null then ra else rb, nodes);
    calls := calls + more;
  }

  // ---------------------------------------------------------------- list_sort

  /** ptrs[i] is a chain through q[i], and no node is in two places. */
  ghost predicate Family(ptrs: seq<ListHead?>, q: seq<seq<ListHead>>, nodes: set<ListHead>)
    reads nodes`next
  {
    && |ptrs| == |q|
    && (forall i :: 0 <= i < |q| ==> Among(q[i], nodes) && NoDup(q[i]))
    && (forall i, j :: 0 <= i < j < |q| ==> Apart([], q[i], q[j]))
    && (forall i :: 0 <= i < |q| ==> Among(q[i], nodes) && Chain(ptrs[i], q[i]))
  }

  lemma MergeAmong(cmp: (ListHead, ListHead) -> int, a: seq<ListHead>, b: seq<ListHead>, nodes: set<ListHead>)
    requires Among(a, nodes) && Among(b, nodes)
    ensures Among(Merge(cmp, a, b), nodes)
  {
  }

  lemma ApartSwap<T>(a: seq<T>, b: seq<T>)
    requires Apart([], a, b)
    ensures Apart([], b, a)
  {
  }

  lemma NoDupMultiset<T>(s: seq<T>)
    requires forall x :: multiset(s)[x] <= 1
    ensures NoDup(s)
  {
    forall i, j | 0 <= i < j < |s|
      ensures s[i] != s[j]
    {
      assert s == s[..j] + [s[j]] + s[j + 1..];
      assert multiset(s)[s[j]] >= multiset(s[..j])[s[j]] + 1;
      assert s[..j][i] == s[i] && s[i] in multiset(s[..j]);
    }
  }

  lemma {:induction false} NoDupOnce<T>(s: seq<T>, x: T)
    requires NoDup(s)
    ensures multiset(s)[x] <= 1
  {
    if s != [] {
      assert s == [s[0]] + s[1..];
      NoDupOnce(s[1..], x);
      if s[0] == x {
        assert x !in s[1..];
      }
    }
  }

  lemma MergeNoDup<T>(cmp: (T, T) -> int, a: seq<T>, b: seq<T>)
    requires Apart([], a, b)
    ensures NoDup(Merge(cmp, a, b))
  {
    MergeContent(cmp, a, b);
    forall x
      ensures multiset(Merge(cmp, a, b))[x] <= 1
    {
      NoDupOnce(a, x);
      NoDupOnce(b, x);
      assert x in a ==> x !in b;
    }
    NoDupMultiset(Merge(cmp, a, b));
  }

  lemma MergeApart<T>(cmp: (T, T) -> int, c: seq<T>, a: seq<T>, b: seq<T>)
    requires Apart([], c, a) && Apart([], c, b) && Apart([], a, b)
    ensures Apart([], c, Merge(cmp, a, b))
  {
    MergeNoDup(cmp, a, b);
    MergeMembers(cmp, a, b);
    forall i, j | 0 <= i < |c| && 0 <= j < |Merge(cmp, a, b)|
      ensures c[i] != Merge(cmp, a, b)[j]
    {
      assert Merge(cmp, a, b)[j] in Merge(cmp, a, b);
    }
  }

  /** Chains i and j of the family become one. */
  lemma FamilyMerged(cmp: (ListHead, ListHead) -> int, ptrs: seq<ListHead?>, q: seq<seq<ListHead>>, nodes: set<ListHead>,
                     i: nat, j: nat, r: ListHead?)
    requires |ptrs| == |q| && i < j < |q|
    requires forall k :: 0 <= k < |q| ==> Among(q[k], nodes) && NoDup(q[k])
    requires forall k, l :: 0 <= k < l < |q| ==> Apart([], q[k], q[l])
    requires forall k :: 0 <= k < |q| && k != i && k != j ==> Chain(ptrs[k], q[k])
    requires Chain(r, Merge(cmp, q[i], q[j]))
    ensures Family(ptrs[i := null][j := r], q[i := []][j := Merge(cmp, q[i], q[j])], nodes)
  {
    var merged := Merge(cmp, q[i], q[j]);
    var q' := q[i := []][j := merged];
    MergeAmong(cmp, q[i], q[j], nodes);
    MergeNoDup(cmp, q[i], q[j]);
    forall k | 0 <= k < |q| && k != i && k != j
      ensures Apart([], q[k], merged) && Apart([], merged, q[k])
    {
      if k < i { assert Apart([], q[k], q[i]); } else { ApartSwap(q[i], q[k]); }
      if k < j { assert Apart([], q[k], q[j]); } else { ApartSwap(q[j], q[k]); }
      MergeApart(cmp, q[k], q[i], q[j]);
      ApartSwap(q[k], merged);
    }
  }

  method MergeInto(cmp: (ListHead, ListHead) -> int, a: ListHead?, b: ListHead?,
                   ghost ptrs: seq<ListHead?>, ghost q: seq<seq<ListHead>>, ghost nodes: set<ListHead>, ghost i: nat, ghost j: nat)
    returns (r: ListHead?, ghost calls: nat)
    requires Family(ptrs, q, nodes) && i < j < |q| && ptrs[i] == a && ptrs[j] == b
    modifies nodes`next
    ensures Family(ptrs[i := null][j := r], q[i := []][j := Merge(cmp, q[i], q[j])], nodes)
    ensures calls == MergeCalls(cmp, q[i], q[j])
  {
    ghost var two := set x | x in q[i] || x in q[j];
    assert forall k :: 0 <= k < |q| ==> Among(q[k], nodes);
    assert forall x :: x in two ==> x in nodes;
    forall k, x | 0 <= k < |q| && k != i && k != j && x in q[k]
      ensures x !in two
    {
      if k < i { assert Apart([], q[k], q[i]); } else { ApartSwap(q[i], q[k]); }
      if k < j { assert Apart([], q[k], q[j]); } else { ApartSwap(q[j], q[k]); }
    }
    r, calls := MergeChains(cmp, a, b, q[i], q[j], two);
    FamilyMerged(cmp, ptrs, q, nodes, i, j, r);
  }

  const CUR: nat := MAX_LIST_LENGTH_BITS + 1   // the place of cur in the family
  const LIST: nat := MAX_LIST_LENGTH_BITS + 2  // the place of list

  lemma Unring(head: ListHead, s: seq<ListHead>)
    requires s != [] && Linked([head] + s) && s[|s| - 1].next == null
    ensures Chain(head.next, s)
  {
    var ring := [head] + s;
    assert ring[0].next == ring[1];
    forall i | 0 <= i < |s|
      ensures s[i].next == if i + 1 < |s| then s[i + 1] else null
    {
      assert i + 1 < |s| ==> ring[i + 1].next == ring[i + 2];
    }
  }

  lemma RingFacts(head: ListHead, s: seq<ListHead>)
    requires Ring(head, s)
    ensures head.next == head <==> s == []
    ensures head !in s && NoDup(s)
    ensures head.prev != null && (s != [] ==> head.prev == s[|s| - 1])
  {
    var ring := [head] + s;
    HeadApart(head, s);
    assert forall i :: 0 <= i < |s| ==> s[i] == ring[i + 1];
    assert s != [] ==> ring[0].next == ring[1];
  }

  /** head->prev->next = NULL; list = head->next */
  method BreakRing(head: ListHead, ghost s: seq<ListHead>) returns (list: ListHead?)
    requires Ring(head, s) && s != []
    modifies head.prev`next
    ensures Chain(list, s)
  {
    RingFacts(head, s);
    LastApart([head] + s, [], []);
    head.prev.next := null;
    list := head.next;
    Unring(head, s);
  }

  /** part[], cur and list as one family. */
  ghost predicate Sorting(part: seq<ListHead?>, p: seq<seq<ListHead>>, cur: ListHead?, sc: seq<ListHead>,
                          list: ListHead?, rest: seq<ListHead>, nodes: set<ListHead>)
    reads nodes`next
  {
    Levels(p) && |part| == |p| && Family(part + [cur, list], p + [sc, rest], nodes)
  }

  lemma SortingStart(s: seq<ListHead>, list: ListHead?, part: seq<ListHead?>, nodes: set<ListHead>)
    requires Chain(list, s) && NoDup(s) && Among(s, nodes)
    requires |part| == MAX_LIST_LENGTH_BITS + 1 && forall i :: 0 <= i < |part| ==> part[i] == null
    ensures Sorting(part, Init<ListHead>().part, null, [], list, s, nodes)
  {
  }

  /** cur = list; list = list->next; cur->next = NULL */
  method TakeFirst(list: ListHead, ghost part: seq<ListHead?>, ghost p: seq<seq<ListHead>>,
                   ghost rest: seq<ListHead>, ghost nodes: set<ListHead>) returns (cur: ListHead, list': ListHead?)
    requires Sorting(part, p, null, [], list, rest, nodes)
    modifies nodes`next
    ensures rest != [] && Sorting(part, p, cur, [rest[0]], list', rest[1..], nodes)
  {
    ghost var ptrs, q := part + [null, list], p + [[], rest];
    assert forall k :: 0 <= k < |q| ==> Among(q[k], nodes) && Chain(ptrs[k], q[k]);
    assert Chain(list, rest) by { assert ptrs[LIST] == list && q[LIST] == rest; }
    assert rest[0] in nodes by { assert Among(q[LIST], nodes); }
    ChainTail(list, rest);
    cur := list;
    list' := list.next;
    forall k | 0 <= k < |p|
      ensures list !in p[k]
    {
      assert q[k] == p[k] && Apart([], q[k], q[LIST]);
    }
    cur.next := null;
    ghost var ptrs', q' := part + [cur, list'], p + [[rest[0]], rest[1..]];
    forall k | 0 <= k < |q'|
      ensures Among(q'[k], nodes) && NoDup(q'[k]) && Chain(ptrs'[k], q'[k])
    {
      assert Among(q[k], nodes) && NoDup(q[k]);
    }
    forall k, l | 0 <= k < l < |q'|
      ensures Apart([], q'[k], q'[l])
    {
      assert k < |p| ==> Apart([], q[k], q[l]) && Apart([], q[k], q[LIST]);
    }
  }

  /** part[lev] = cur, where part[lev] is free */
  lemma SortingPlace(part: seq<ListHead?>, p: seq<seq<ListHead>>, cur: ListHead?, sc: seq<ListHead>,
                     list: ListHead?, rest: seq<ListHead>, nodes: set<ListHead>, lev: nat)
    requires Sorting(part, p, cur, sc, list, rest, nodes) && lev <= TOP && p[lev] == []
    ensures Sorting(part[lev := cur], p[lev := sc], null, [], list, rest, nodes)
  {
    var q, q' := p + [sc, rest], p[lev := sc] + [[], rest];
    forall k | 0 <= k < |q'|
      ensures Among(q'[k], nodes) && NoDup(q'[k]) && Chain((part[lev := cur] + [null, list])[k], q'[k])
    {
      var k' := if k == lev then CUR else if k == CUR then lev else k;
      assert q'[k] == q[k'] && Among(q[k'], nodes) && NoDup(q[k']) && Chain((part + [cur, list])[k'], q[k']);
    }
    forall k, l | 0 <= k < l < |q'|
      ensures Apart([], q'[k], q'[l])
    {
      assert k < |p| ==> Apart([], q[k], q[CUR]);
      if k < |p| {
        ApartSwap(q[k], q[CUR]);
      }
      assert l < |p| ==> Apart([], q[l], q[CUR]) && Apart([], q[k], q[l]);
      if l < |p| {
        ApartSwap(q[l], q[CUR]);
      }
      assert l == LIST ==> Apart([], q[CUR], q[LIST]) && (k < |p| ==> Apart([], q[k], q[LIST]));
    }
  }

  lemma SortingAt(part: seq<ListHead?>, p: seq<seq<ListHead>>, cur: ListHead?, sc: seq<ListHead>,
                  list: ListHead?, rest: seq<ListHead>, nodes: set<ListHead>, lev: nat)
    requires Sorting(part, p, cur, sc, list, rest, nodes) && lev < |p|
    ensures (part[lev] == null <==> p[lev] == []) && (list == null <==> rest == [])
    ensures Chain(part[lev], p[lev]) && Among(p[lev], nodes) && Chain(list, rest) && Among(rest, nodes)
    ensures Apart([], p[lev], rest)
  {
    var ptrs, q := part + [cur, list], p + [sc, rest];
    assert Among(q[lev], nodes) && Chain(ptrs[lev], q[lev]);
    assert Among(q[LIST], nodes) && Chain(ptrs[LIST], q[LIST]);
    assert Apart([], q[lev], q[LIST]);
  }

  /** Where a carry stands: inserting sc at lev of p would give target, for the calls still to make. */
  ghost predicate Carrying(cmp: (ListHead, ListHead) -> int, p: seq<seq<ListHead>>, lev: nat, sc: seq<ListHead>,
                           calls: nat, target: Inserted<ListHead>)
  {
    && Levels(p) && lev <= MAX_LIST_LENGTH_BITS && (lev > 0 ==> p[lev - 1] == [])
    && var r := Insert(cmp, p, lev, sc); r.(calls := calls + r.calls) == target
  }

  /** cur = merge(part[lev], cur); part[lev] = NULL */
  method MergeLevel(cmp: (ListHead, ListHead) -> int, part: array<ListHead?>, lev: nat, cur: ListHead?, ghost list: ListHead?,
                    ghost p: seq<seq<ListHead>>, ghost sc: seq<ListHead>, ghost rest: seq<ListHead>, ghost nodes: set<ListHead>)
    returns (cur': ListHead?, ghost calls: nat)
    requires Sorting(part[..], p, cur, sc, list, rest, nodes) && lev < part.Length
    modifies part, nodes`next
    ensures Sorting(part[..], p[lev := []], cur', Merge(cmp, p[lev], sc), list, rest, nodes)
    ensures calls == MergeCalls(cmp, p[lev], sc)
  {
    ghost var before, merged := part[..], Merge(cmp, p[lev], sc);
    cur', calls := MergeInto(cmp, part[lev], cur, before + [cur, list], p + [sc, rest], nodes, lev, CUR);
    part[lev] := null;
    assert part[..] + [cur', list] == (before + [cur, list])[lev := null][CUR := cur'];
    assert p[lev := []] + [merged, rest] == (p + [sc, rest])[lev := []][CUR := merged];
  }

  lemma CarryingUp(cmp: (ListHead, ListHead) -> int, p: seq<seq<ListHead>>, lev: nat, sc: seq<ListHead>,
                   calls: nat, target: Inserted<ListHead>)
    requires Carrying(cmp, p, lev, sc, calls, target) && p[lev] != []
    ensures lev < MAX_LIST_LENGTH_BITS
    ensures Carrying(cmp, p[lev := []], lev + 1, Merge(cmp, p[lev], sc), calls + MergeCalls(cmp, p[lev], sc), target)
  {
  }

  lemma CarryingEnds(cmp: (ListHead, ListHead) -> int, p: seq<seq<ListHead>>, lev: nat, sc: seq<ListHead>,
                     calls: nat, target: Inserted<ListHead>)
    requires Carrying(cmp, p, lev, sc, calls, target) && p[lev] == []
    ensures
      var slot := if lev == MAX_LIST_LENGTH_BITS then TOP else lev;
      p[slot] == [] && target == Inserted(p[slot := sc], slot, calls)
  {
  }

  /** The inner loop of list_sort: for (lev = 0; part[lev]; lev++) cur = merge(part[lev], cur). */
  method CarryUp(cmp: (ListHead, ListHead) -> int, part: array<ListHead?>, cur0: ListHead, list: ListHead?,
                 ghost p0: seq<seq<ListHead>>, ghost sc0: seq<ListHead>, ghost rest: seq<ListHead>, ghost nodes: set<ListHead>)
    returns (lev: nat, cur: ListHead?, ghost p: seq<seq<ListHead>>, ghost sc: seq<ListHead>, ghost calls: nat)
    requires part.Length == MAX_LIST_LENGTH_BITS + 1
    requires Sorting(part[..], p0, cur0, sc0, list, rest, nodes)
    modifies part, nodes`next
    ensures Sorting(part[..], p, cur, sc, list, rest, nodes)
    ensures Carrying(cmp, p, lev, sc, calls, Insert(cmp, p0, 0, sc0)) && p[lev] == []
  {
    ghost var target := Insert(cmp, p0, 0, sc0);
    lev, cur, calls := 0, cur0, 0;
    p, sc := p0, sc0;
    SortingAt(part[..], p, cur, sc, list, rest, nodes, lev);
    while part[lev] != null
      invariant Carrying(cmp, p, lev, sc, calls, target)
      invariant Sorting(part[..], p, cur, sc, list, rest, nodes)
      invariant part[lev] == null <==> p[lev] == []
      decreases MAX_LIST_LENGTH_BITS - lev
    {
      CarryingUp(cmp, p, lev, sc, calls, target);
      ghost var more;
      cur, more := MergeLevel(cmp, part, lev, cur, list, p, sc, rest, nodes);
      sc, p, calls := Merge(cmp, p[lev], sc), p[lev := []], calls + more;
      lev := lev + 1;
      SortingAt(part[..], p, cur, sc, list, rest, nodes, lev);
    }
  }

  /** One round of the main loop of list_sort: the first node of list is consumed. */
  method ConsumeOne(cmp: (ListHead, ListHead) -> int, part: array<ListHead?>, list: ListHead, maxLev: nat,
                    ghost c: Counter<ListHead>, ghost rest: seq<ListHead>, ghost nodes: set<ListHead>)
    returns (list': ListHead?, maxLev': nat, ghost calls: nat)
    requires part.Length == MAX_LIST_LENGTH_BITS + 1 && CounterOk(c) && c.maxLev == maxLev
    requires Sorting(part[..], c.part, null, [], list, rest, nodes)
    modifies part, nodes`next
    ensures rest != [] && Sorting(part[..], Consume(cmp, c, rest[0]).part, null, [], list', rest[1..], nodes)
    ensures maxLev' == Consume(cmp, c, rest[0]).maxLev && calls == Consume(cmp, c, rest[0]).calls - c.calls
  {
    var first, lev, cur;
    ghost var p, sc;
    first, list' := TakeFirst(list, part[..], c.part, rest, nodes);
    lev, cur, p, sc, calls := CarryUp(cmp, part, first, list', c.part, [rest[0]], rest[1..], nodes);
    CarryingEnds(cmp, p, lev, sc, calls, Insert(cmp, c.part, 0, [rest[0]]));
    maxLev' := maxLev;
    if lev > maxLev' {
      if lev >= MAX_LIST_LENGTH_BITS {
        lev := lev - 1;
      }
      maxLev' := lev;
    }
    SortingPlace(part[..], p, cur, sc, list', rest[1..], nodes, lev);
    ghost var before := part[..];
    part[lev] := cur;
    assert part[..] == before[lev := cur];
  }

  lemma Advance<T>(cmp: (T, T) -> int, s: seq<T>, k: nat)
    requires k < |s|
    ensures s[k..][0] == s[k] && s[k..][1..] == s[k + 1..]
    ensures Run(cmp, s[..k + 1]) == Consume(cmp, Run(cmp, s[..k]), s[k])
  {
    assert s[..k + 1][..k] == s[..k];
  }

  /** The main loop of list_sort: consume every node of the chain list, carrying through part[]. */
  method ConsumeAll(cmp: (ListHead, ListHead) -> int, part: array<ListHead?>, list0: ListHead?,
                    ghost s: seq<ListHead>, ghost nodes: set<ListHead>) returns (maxLev: nat, ghost calls: nat)
    requires part.Length == MAX_LIST_LENGTH_BITS + 1
    requires Sorting(part[..], Init<ListHead>().part, null, [], list0, s, nodes)
    modifies part, nodes`next
    ensures maxLev == Run(cmp, s).maxLev && calls == Run(cmp, s).calls
    ensures Sorting(part[..], Run(cmp, s).part, null, [], null, [], nodes)
  {
    var list := list0;
    maxLev, calls := 0, 0;
    ghost var c, k := Init<ListHead>(), 0;
    while list != null
      invariant 0 <= k <= |s| && c == Run(cmp, s[..k]) && c.maxLev == maxLev && c.calls == calls
      invariant Sorting(part[..], c.part, null, [], list, s[k..], nodes)
      decreases |s| - k
    {
      ghost var more;
      list, maxLev, more := ConsumeOne(cmp, part, list, maxLev, c, s[k..], nodes);
      calls := calls + more;
      Advance(cmp, s, k);
      c, k := Consume(cmp, c, s[k]), k + 1;
    }
    SortingAt(part[..], c.part, null, [], list, s[k..], nodes, 0);
    assert s[..k] == s;
  }

  /** The last loop of list_sort: merge the occupied levels below maxLev, lowest first. */
  method CollectLevels(cmp: (ListHead, ListHead) -> int, part: array<ListHead?>, maxLev: nat,
                       ghost p: seq<seq<ListHead>>, ghost nodes: set<ListHead>)
    returns (list: ListHead?, ghost acc: seq<ListHead>, ghost calls: nat)
    requires part.Length == MAX_LIST_LENGTH_BITS + 1 && maxLev <= TOP
    requires Sorting(part[..], p, null, [], null, [], nodes)
    modifies nodes`next
    ensures acc == Collect(cmp, p, 0, maxLev, []) && calls == CollectCalls(cmp, p, 0, maxLev, [])
    ensures Chain(list, acc) && Among(acc, nodes) && Among(p[maxLev], nodes)
    ensures Chain(part[maxLev], p[maxLev]) && Apart([], p[maxLev], acc)
  {
    list, acc, calls := null, [], 0;
    ghost var ptrs, q := part[..], p;
    ghost var all, total := Collect(cmp, p, 0, maxLev, []), CollectCalls(cmp, p, 0, maxLev, []);
    var lev := 0;
    while lev < maxLev
      invariant 0 <= lev <= maxLev
      invariant Sorting(ptrs, q, null, [], list, acc, nodes)
      invariant forall k :: lev <= k <= TOP ==> ptrs[k] == part[k] && q[k] == p[k]
      invariant Collect(cmp, p, lev, maxLev, acc) == all
      invariant calls + CollectCalls(cmp, p, lev, maxLev, acc) == total
    {
      SortingAt(ptrs, q, null, [], list, acc, nodes, lev);
      if part[lev] != null {
        ghost var more, merged := 0, Merge(cmp, q[lev], acc);
        ghost var was := list;
        list, more := MergeInto(cmp, part[lev], list, ptrs + [null, list], q + [[], acc], nodes, lev, LIST);
        assert ptrs[lev := null] + [null, list] == (ptrs + [null, was])[lev := null][LIST := list];
        assert q[lev := []] + [[], merged] == (q + [[], acc])[lev := []][LIST := merged];
        calls := calls + more;
        ptrs, q, acc := ptrs[lev := null], q[lev := []], merged;
      }
      lev := lev + 1;
    }
    SortingAt(ptrs, q, null, [], list, acc, nodes, maxLev);
  }

  lemma HeadJoins(head: ListHead, a: seq<ListHead>, b: seq<ListHead>, nodes: set<ListHead>)
    requires Apart([], a, b) && Among(a, nodes) && Among(b, nodes) && head !in nodes
    ensures Apart([head], a, b)
  {
  }

  /** The final merges of list_sort. */
  method MergeAll(cmp: (ListHead, ListHead) -> int, head: ListHead, part: array<ListHead?>, maxLev: nat,
                  ghost p: seq<seq<ListHead>>, ghost nodes: set<ListHead>)
    returns (ghost acc: seq<ListHead>, ghost collecting: nat, ghost last: nat)
    requires part.Length == MAX_LIST_LENGTH_BITS + 1 && maxLev <= TOP
    requires Sorting(part[..], p, null, [], null, [], nodes) && p[maxLev] != [] && head !in nodes
    modifies head, nodes
    ensures acc == Collect(cmp, p, 0, maxLev, []) && collecting == CollectCalls(cmp, p, 0, maxLev, [])
    ensures Ring(head, Merge(cmp, p[maxLev], acc)) && last == |p[maxLev]| + |acc|
  {
    var list;
    list, acc, collecting := CollectLevels(cmp, part, maxLev, p, nodes);
    HeadJoins(head, p[maxLev], acc, nodes);
    last := MergeAndRestoreBackLinks(cmp, head, part[maxLev], list, p[maxLev], acc, nodes);
  }

  lemma SortUnfold<T>(cmp: (T, T) -> int, xs: seq<T>, c: Counter<T>, collected: seq<T>, collecting: nat)
    requires xs != [] && c == Run(cmp, xs) && collected == Collect(cmp, c.part, 0, c.maxLev, [])
    requires collecting == CollectCalls(cmp, c.part, 0, c.maxLev, [])
    ensures MergeSort.Sort(cmp, xs) == Merge(cmp, c.part[c.maxLev], collected)
    ensures SortCalls(cmp, xs) == c.calls + collecting + |c.part[c.maxLev]| + |collected|
  {
    SortPermutes(cmp, xs);
    assert |multiset(xs)| == |xs| && |multiset(MergeSort.Sort(cmp, xs))| == |MergeSort.Sort(cmp, xs)|;
  }

  lemma StableAndCheap(cmp: (ListHead, ListHead) -> int, head: ListHead, s: seq<ListHead>)
    requires Ring(head, s)
    ensures TotalPreorder(cmp, set x | x in s) ==> IsStableSort(cmp, s, MergeSort.Sort(cmp, s))
    ensures |s| < Pow2(MAX_LIST_LENGTH_BITS) ==> SortCalls(cmp, s) <= Log2(|s|) * |s| + |s|
    ensures SortCalls(cmp, s) <= TOP * |s| + |s| + |s| * ShiftRight(|s|, TOP)
  {
    hide TotalPreorder, IsStableSort, Pow2, Log2, SortCalls, ShiftRight;
    RingFacts(head, s);
    SortCost(cmp, s);
    if TotalPreorder(cmp, set x | x in s) { SortIsStable(cmp, s); }
  }

  /**
   list_sort: the list stays a well-formed circular doubly linked list through the same nodes,
   in the order given by MergeSort.Sort. Nothing is asked of cmp; if it is a total preorder,
   that order is the stable sort.
   */
  method Sort(cmp: (ListHead, ListHead) -> int, head: ListHead, ghost s: seq<ListHead>) returns (ghost calls: nat)
    requires Ring(head, s)
    modifies head, s
    ensures Ring(head, MergeSort.Sort(cmp, s))
    ensures calls == SortCalls(cmp, s)
    ensures TotalPreorder(cmp, set x | x in s) ==> IsStableSort(cmp, s, MergeSort.Sort(cmp, s))
    ensures |s| < Pow2(MAX_LIST_LENGTH_BITS) ==> calls <= Log2(|s|) * |s| + |s|
    ensures calls <= TOP * |s| + |s| + |s| * ShiftRight(|s|, TOP)
  {
    hide Sorting, Run, Merge, Collect, CollectCalls, TotalPreorder, IsStableSort, Pow2, Log2, ShiftRight;
    StableAndCheap(cmp, head, s);
    RingFacts(head, s);
    if head.next == head {
      SortEmpty(cmp);
      return 0;
    }
    var part := new ListHead?[MAX_LIST_LENGTH_BITS + 1](_ => null);
    ghost var nodes := set x | x in s;
    var list := BreakRing(head, s);
    SortingStart(s, list, part[..], nodes);
    var maxLev;
    ghost var consuming, collecting, last, acc;
    maxLev, consuming := ConsumeAll(cmp, part, list, s, nodes);
    RunOccupied(cmp, s);
    acc, collecting, last := MergeAll(cmp, head, part, maxLev, Run(cmp, s).part, nodes);
    SortUnfold(cmp, s, Run(cmp, s), acc, collecting);
    calls := consuming + collecting + last;
  }
}
