/**
 The walks and searches of the intrusive tree in itree.h: post-order steps along parent links,
 the deletion of all nodes that follows them, and the searches for the first or last node on
 one side of a key.
 */
module ITree {
  import opened Sequences

  class Node {
    var left: Node?
    var right: Node?
    var up: Node?
    var alive: bool  // false once the node is deleted; a deleted node must not be read

    constructor ()
      ensures left == null && right == null && up == null && alive
    {
      left, right, up, alive := null, null, null, true;
    }
  }

  // ---------------------------------------------------------------- shape

  datatype Tree = Leaf | Branch(node: Node, l: Tree, r: Tree)

  ghost function Nodes(t: Tree): set<Node> {
    if t.Leaf? then {} else {t.node} + Nodes(t.l) + Nodes(t.r)
  }

  /** The links below n form the tree t, whose root has the parent up. */
  ghost predicate Shape(t: Tree, n: Node?, up: Node?)
    reads Nodes(t)`left, Nodes(t)`right, Nodes(t)`up
  {
    match t
    case Leaf => n == null
    case Branch(x, l, r) =>
      n == x && x.up == up && Shape(l, x.left, x) && Shape(r, x.right, x)
  }

  /** No node occurs twice. */
  ghost predicate Distinct(t: Tree) {
    t.Branch? ==> t.node !in Nodes(t.l) && t.node !in Nodes(t.r) && Nodes(t.l) !! Nodes(t.r) && Distinct(t.l) && Distinct(t.r)
  }

  ghost function Post(t: Tree): (s: seq<Node>)
    ensures if t.Leaf? then s == [] else |s| > 0 && s[|s| - 1] == t.node
  {
    if t.Leaf? then [] else Post(t.l) + Post(t.r) + [t.node]
  }

  lemma PostNodes(t: Tree, x: Node)
    ensures x in Post(t) <==> x in Nodes(t)
  {
  }

  lemma NoDupAppend(a: seq<Node>, b: seq<Node>)
    requires NoDup(a) && NoDup(b) && forall x <- a :: x !in b
    ensures NoDup(a + b)
  {
    forall i, j | 0 <= i < j < |a + b| ensures (a + b)[i] != (a + b)[j] {
      if i < |a| <= j { assert a[i] in a && b[j - |a|] in b; }
    }
  }

  /** The post-order of a tree without repetitions has none either. */
  lemma {:induction false} PostNoDup(t: Tree)
    requires Distinct(t)
    ensures NoDup(Post(t))
  {
    if t.Branch? {
      PostNoDup(t.l);
      PostNoDup(t.r);
      forall x <- Post(t.l) ensures x !in Post(t.r) && x != t.node {
        PostNodes(t.l, x);
        PostNodes(t.r, x);
      }
      PostNodes(t.r, t.node);
      NoDupAppend(Post(t.l), Post(t.r));
      NoDupAppend(Post(t.l) + Post(t.r), [t.node]);
    }
  }

  /**
   The node n, followed by rest in post-order: next is its parent, unless the parent has another,
   right child; then u is the tree below that child, and its post-order is next. The parent of
   the last node is up.
   */
  ghost predicate Follows(n: Node, rest: seq<Node>, up: Node?, u: Tree)
    reads n, n.up, Nodes(u)
  {
    var p := n.up;
    if rest == [] then p == up else
      && p != null && p in rest
      && if p.right != null && p.right != n then u.Branch? && Shape(u, p.right, p) && Post(u) <= rest else rest[0] == p
  }

  lemma FollowsLonger(n: Node, rest: seq<Node>, more: seq<Node>, up: Node?, up': Node?, u: Tree)
    requires rest != [] && Follows(n, rest, up, u)
    ensures Follows(n, rest + more, up', u)
  {
  }

  lemma LastOfLeft(t: Tree, root: Node?, up: Node?)
    requires t.Branch? && t.l.Branch? && Shape(t, root, up) && Distinct(t)
    ensures Follows(t.l.node, Post(t.r) + [t.node], up, t.r)
  {
  }

  lemma LastOfRight(t: Tree, root: Node?, up: Node?, u: Tree)
    requires t.Branch? && t.r.Branch? && Shape(t, root, up)
    ensures Follows(t.r.node, [t.node], up, u)
  {
  }

  lemma LastOfTree(t: Tree, root: Node?, up: Node?, u: Tree)
    requires t.Branch? && Shape(t, root, up)
    ensures Follows(t.node, [], up, u)
  {
  }

  lemma {:induction false} Successor(t: Tree, root: Node?, up: Node?, i: nat) returns (u: Tree)
    requires Shape(t, root, up) && Distinct(t) && i < |Post(t)|
    ensures Follows(Post(t)[i], Post(t)[i + 1..], up, u)
  {
    hide Follows;
    var Branch(x, l, r) := t;
    var a, b := |Post(l)|, |Post(l)| + |Post(r)|;
    if i + 1 < a {
      u := Successor(l, x.left, x, i);
      assert Post(t)[i + 1..] == Post(l)[i + 1..] + (Post(r) + [x]);
      FollowsLonger(Post(l)[i], Post(l)[i + 1..], Post(r) + [x], x, up, u);
    } else if i + 1 == a {
      u := r;
      assert Post(t)[i] == l.node && Post(t)[i + 1..] == Post(r) + [x];
      LastOfLeft(t, root, up);
    } else if i + 1 < b {
      u := Successor(r, x.right, x, i - a);
      assert Post(t)[i + 1..] == Post(r)[i - a + 1..] + [x];
      FollowsLonger(Post(r)[i - a], Post(r)[i - a + 1..], [x], x, up, u);
    } else if i + 1 == b {
      u := Leaf;
      assert Post(t)[i] == r.node && Post(t)[i + 1..] == [x];
      LastOfRight(t, root, up, u);
    } else {
      u := Leaf;
      assert Post(t)[i] == x && Post(t)[i + 1..] == [];
      LastOfTree(t, root, up, u);
    }
  }

  // ---------------------------------------------------------------- walks

  /** The nodes of the tree have not been deleted. */
  ghost predicate Alive(s: seq<Node>)
    reads s`alive
  {
    forall i :: 0 <= i < |s| ==> s[i].alive
  }

  // The accessors demand a node that has not been deleted; the walks read nodes through them alone.

  function Left(n: Node): Node?
    requires n.alive
    reads n
  {
    n.left
  }

  function Right(n: Node): Node?
    requires n.alive
    reads n
  {
    n.right
  }

  function Up(n: Node): Node?
    requires n.alive
    reads n
  {
    n.up
  }

  /** (nn = left (n)) || (nn = right (n)) */
  function FirstChild(n: Node): Node?
    requires n.alive
    reads n
  {
    if Left(n) != null then Left(n) else Right(n)
  }

  function Child(t: Tree): Tree
    requires t.Branch?
  {
    if t.l.Branch? then t.l else t.r
  }

  /** One step down of min_postorder keeps the first node in post-order. */
  lemma Descend(t: Tree, n: Node, up: Node?)
    requires t.Branch? && Shape(t, n, up) && Alive(Post(t))
    ensures n.alive && Alive(Post(Child(t)))
    ensures if FirstChild(n) == null then Post(t) == [n] else
              Child(t).Branch? && Shape(Child(t), FirstChild(n), n) && Post(Child(t))[0] == Post(t)[0]
  {
    var s, u := Post(t), Post(Child(t));
    assert s[|s| - 1].alive;
    assert t.l.Leaf? ==> Post(t.l) == [];
    assert t.l.Leaf? ==> s == u + [t.node];
    assert t.l.Branch? ==> s == u + (Post(t.r) + [t.node]);
    forall i | 0 <= i < |u| ensures u[i].alive { assert u[i] == s[i]; }
  }

  /** min_postorder: the first node in post-order below n */
  method MinPostorder(n: Node?, ghost t: Tree, ghost up: Node?) returns (m: Node?)
    requires Shape(t, n, up) && Alive(Post(t))
    ensures if t.Leaf? then m == null else m == Post(t)[0]
  {
    m := n;
    if n != null {
      ghost var u, v := t, up;
      hide Alive, Shape;
      Descend(u, m, v);
      var nn := FirstChild(m);
      while nn != null
        invariant m != null && u.Branch? && Shape(u, m, v) && Alive(Post(u)) && Post(u)[0] == Post(t)[0]
        invariant m.alive && nn == FirstChild(m)
        decreases u
      {
        Descend(u, m, v);
        u, v := Child(u), m;
        m := nn;
        Descend(u, m, v);
        nn := FirstChild(m);
      }
      Descend(u, m, v);
    }
  }

  /** The nodes from index k on have not been deleted. */
  ghost predicate AliveFrom(s: seq<Node>, k: nat)
    reads s`alive
  {
    forall i :: k <= i < |s| ==> s[i].alive
  }

  lemma AliveParts(s: seq<Node>, k: nat, u: seq<Node>)
    requires k < |s| && AliveFrom(s, k)
    ensures s[k].alive && (forall x <- s[k + 1..] :: x.alive)
    ensures u <= s[k + 1..] ==> Alive(u)
  {
  }

  /** next_postorder: reads only nodes from n on, and gives the one after n, or null after the last. */
  method NextPostorder(n: Node, ghost t: Tree, ghost root: Node?, ghost k: nat) returns (m: Node?)
    requires Shape(t, root, null) && Distinct(t) && k < |Post(t)| && n == Post(t)[k] && AliveFrom(Post(t), k)
    ensures m == if k + 1 < |Post(t)| then Post(t)[k + 1] else null
  {
    ghost var u := Successor(t, root, null, k);
    AliveParts(Post(t), k, Post(u));
    hide Shape, Alive, AliveFrom, Distinct, Post;
    m := Up(n);
    if m != null && Right(m) != null && n != Right(m) {
      m := MinPostorder(Right(m), u, m);
    }
  }

  /** delete n; deleting a deleted node is an error */
  method Delete(n: Node)
    requires n.alive
    modifies n`alive
    ensures !n.alive
  {
    n.alive := false;
  }

  lemma NodesExist(t: Tree)
    ensures forall x <- Nodes(t) :: allocated(x)
    ensures forall i :: 0 <= i < |Post(t)| ==> allocated(Post(t)[i])
  {
  }

  /** The nodes before index k have been deleted, those from k on have not. */
  ghost predicate DeletedUpTo(s: seq<Node>, k: nat)
    reads s`alive
  {
    k <= |s| && AliveFrom(s, k) && forall i :: 0 <= i < k ==> !s[i].alive
  }

  method DeleteNext(n: Node, ghost s: seq<Node>, ghost k: nat)
    requires NoDup(s) && k < |s| && n == s[k] && DeletedUpTo(s, k)
    modifies n`alive
    ensures DeletedUpTo(s, k + 1)
  {
    Delete(n);
  }

  /** deleteall: deletes every node, once each and in post-order. */
  method DeleteAll(root: Node?, ghost t: Tree) returns (ghost deleted: seq<Node>)
    requires Shape(t, root, null) && Distinct(t) && Alive(Post(t))
    modifies Nodes(t)`alive
    ensures deleted == Post(t) && NoDup(deleted)
    ensures forall x <- Nodes(t) :: !x.alive
  {
    hide Shape, NoDup, Distinct, Post, Alive, AliveFrom, Nodes;
    deleted := [];
    PostNoDup(t);
    NodesExist(t);
    ghost var s := Post(t);
    NoneDeleted(s);
    var n := MinPostorder(root, t, null);
    while n != null
      invariant deleted <= s && DeletedUpTo(s, |deleted|)
      invariant n == if |deleted| < |s| then s[|deleted|] else null
      invariant Shape(t, root, null)
      decreases |s| - |deleted|
    {
      var nn := NextPostorder(n, t, root, |deleted|);
      PostNodes(t, n);
      DeleteNext(n, s, |deleted|);
      deleted := deleted + [n];
      n := nn;
    }
    AllDeleted(t);
  }

  lemma NoneDeleted(s: seq<Node>)
    requires Alive(s)
    ensures DeletedUpTo(s, 0)
  {
  }

  lemma AllDeleted(t: Tree)
    ensures DeletedUpTo(Post(t), |Post(t)|) ==> forall x <- Nodes(t) :: !x.alive
  {
    hide Post, Nodes;
    forall x <- Nodes(t) ensures DeletedUpTo(Post(t), |Post(t)|) ==> !x.alive { PostNodes(t, x); }
  }

  /** _deleteall_correct: the recursive form deletes the same nodes in the same order. */
  method DeleteSubtree(n: Node?, ghost t: Tree, ghost up: Node?) returns (ghost deleted: seq<Node>)
    requires Shape(t, n, up) && Distinct(t) && forall x <- Nodes(t) :: x.alive
    modifies Nodes(t)`alive
    ensures deleted == Post(t) && forall x <- Nodes(t) :: !x.alive
    decreases t
  {
    deleted := [];
    if n != null {
      NodesExist(t);
      var l, r := Left(n), Right(n);
      ghost var dl := DeleteSubtree(l, t.l, n);
      ghost var dr := DeleteSubtree(r, t.r, n);
      Delete(n);
      deleted := dl + dr + [n];
    }
  }

  // ---------------------------------------------------------------- searches

  ghost function InOrder(t: Tree): seq<Node> {
    if t.Leaf? then [] else InOrder(t.l) + [t.node] + InOrder(t.r)
  }

  /** What a search looks for, given cb (n), the comparison of the key with that of n. */
  datatype Goal = Equal | NotBelow | NotAbove

  predicate Hit(goal: Goal, cb: Node -> int, n: Node) {
    match goal
    case Equal => cb(n) == 0
    case NotBelow => cb(n) <= 0
    case NotAbove => cb(n) >= 0
  }

  function Sign(i: int): int {
    if i < 0 then -1 else if i > 0 then 1 else 0
  }

  /** A search tree: along the nodes in order the key is first above, then equal, then below. */
  ghost predicate Sorted(cb: Node -> int, s: seq<Node>) {
    forall i, j :: 0 <= i < j < |s| ==> Sign(cb(s[i])) >= Sign(cb(s[j]))
  }

  ghost predicate Ordering<K(!new)>(compare: (K, K) -> int) {
    && (forall a, b :: Sign(compare(a, b)) == -Sign(compare(b, a)))
    && (forall a, b, c :: compare(a, b) <= 0 && compare(b, c) <= 0 ==> compare(a, c) <= 0)
  }

  /** Keys in order, with duplicates or without, are sorted around every key k. */
  lemma KeysSorted<K(!new)>(compare: (K, K) -> int, key: Node -> K, s: seq<Node>, k: K)
    requires Ordering(compare) && forall i, j :: 0 <= i < j < |s| ==> compare(key(s[i]), key(s[j])) <= 0
    ensures Sorted((n: Node) => compare(k, key(n)), s)
  {
    forall i, j | 0 <= i < j < |s| ensures Sign(compare(k, key(s[i]))) >= Sign(compare(k, key(s[j]))) {
      var a, b := key(s[i]), key(s[j]);
      assert Sign(compare(k, a)) == -Sign(compare(a, k)) && Sign(compare(k, b)) == -Sign(compare(b, k));
    }
  }

  /** m is the first hit in s, or null if there is none. */
  ghost predicate IsFirst(goal: Goal, cb: Node -> int, s: seq<Node>, m: Node?) {
    if m == null then forall i :: 0 <= i < |s| ==> !Hit(goal, cb, s[i])
    else exists i :: 0 <= i < |s| && s[i] == m && Hit(goal, cb, m) && forall j :: 0 <= j < i ==> !Hit(goal, cb, s[j])
  }

  /** m is the last hit in s, or null if there is none. */
  ghost predicate IsLast(goal: Goal, cb: Node -> int, s: seq<Node>, m: Node?) {
    if m == null then forall i :: 0 <= i < |s| ==> !Hit(goal, cb, s[i])
    else exists i :: 0 <= i < |s| && s[i] == m && Hit(goal, cb, m) && forall j :: i < j < |s| ==> !Hit(goal, cb, s[j])
  }

  /** In a sorted s, the first hit is found by going left at x if the key is not above x, and keeping x if it hits. */
  lemma FirstStep(goal: Goal, cb: Node -> int, a: seq<Node>, x: Node, b: seq<Node>, m: Node?)
    requires Sorted(cb, a + [x] + b) && goal != NotAbove
    ensures Sorted(cb, a) && Sorted(cb, b)
    ensures IsFirst(goal, cb, a, m) && m != null ==> IsFirst(goal, cb, a + [x] + b, m)
    ensures IsFirst(goal, cb, a, null) && Hit(goal, cb, x) ==> IsFirst(goal, cb, a + [x] + b, x)
    ensures IsFirst(goal, cb, a, null) && cb(x) < 0 && goal == Equal ==> IsFirst(goal, cb, a + [x] + b, null)
    ensures cb(x) > 0 && IsFirst(goal, cb, b, m) ==> IsFirst(goal, cb, a + [x] + b, m)
  {
    var s := a + [x] + b;
    SortedParts(cb, a, x, b);
    if IsFirst(goal, cb, a, m) && m != null {
      var i :| 0 <= i < |a| && a[i] == m && Hit(goal, cb, m) && forall j :: 0 <= j < i ==> !Hit(goal, cb, a[j]);
      assert s[i] == m && forall j :: 0 <= j < i ==> s[j] == a[j];
    }
    if IsFirst(goal, cb, a, null) && Hit(goal, cb, x) {
      assert s[|a|] == x;
    }
    if cb(x) > 0 && IsFirst(goal, cb, b, m) {
      if m != null {
        var i :| 0 <= i < |b| && b[i] == m && Hit(goal, cb, m) && forall j :: 0 <= j < i ==> !Hit(goal, cb, b[j]);
        assert s[|a| + 1 + i] == m;
      }
    }
  }

  lemma SortedParts(cb: Node -> int, a: seq<Node>, x: Node, b: seq<Node>)
    requires Sorted(cb, a + [x] + b)
    ensures Sorted(cb, a) && Sorted(cb, b)
    ensures forall i :: 0 <= i < |a| ==> Sign(cb(a[i])) >= Sign(cb(x))
    ensures forall i :: 0 <= i < |b| ==> Sign(cb(x)) >= Sign(cb(b[i]))
  {
    var s := a + [x] + b;
    assert s[|a|] == x;
    forall i, j | 0 <= i < j < |a| ensures Sign(cb(a[i])) >= Sign(cb(a[j])) { assert s[i] == a[i] && s[j] == a[j]; }
    forall i, j | 0 <= i < j < |b| ensures Sign(cb(b[i])) >= Sign(cb(b[j])) {
      assert s[|a| + 1 + i] == b[i] && s[|a| + 1 + j] == b[j];
    }
    forall i | 0 <= i < |a| ensures Sign(cb(a[i])) >= Sign(cb(x)) { assert s[i] == a[i]; }
    forall i | 0 <= i < |b| ensures Sign(cb(x)) >= Sign(cb(b[i])) { assert s[|a| + 1 + i] == b[i]; }
  }

  lemma LastStep(cb: Node -> int, a: seq<Node>, x: Node, b: seq<Node>, m: Node?)
    requires Sorted(cb, a + [x] + b)
    ensures Sorted(cb, a) && Sorted(cb, b)
    ensures IsLast(NotAbove, cb, b, m) && m != null ==> IsLast(NotAbove, cb, a + [x] + b, m)
    ensures IsLast(NotAbove, cb, b, null) && cb(x) >= 0 ==> IsLast(NotAbove, cb, a + [x] + b, x)
    ensures cb(x) < 0 && IsLast(NotAbove, cb, a, m) ==> IsLast(NotAbove, cb, a + [x] + b, m)
  {
    var s := a + [x] + b;
    SortedParts(cb, a, x, b);
    if IsLast(NotAbove, cb, b, m) && m != null {
      var i :| 0 <= i < |b| && b[i] == m && Hit(NotAbove, cb, m) && forall j :: i < j < |b| ==> !Hit(NotAbove, cb, b[j]);
      assert s[|a| + 1 + i] == m;
    }
    if IsLast(NotAbove, cb, b, null) && cb(x) >= 0 {
      assert s[|a|] == x;
    }
    if cb(x) < 0 && IsLast(NotAbove, cb, a, m) && m != null {
      var i :| 0 <= i < |a| && a[i] == m && Hit(NotAbove, cb, m) && forall j :: i < j < |a| ==> !Hit(NotAbove, cb, a[j]);
      assert s[i] == m;
    }
  }

  ghost function First(goal: Goal, cb: Node -> int, s: seq<Node>): (m: Node?)
    ensures IsFirst(goal, cb, s, m)
  {
    if s == [] then null else if Hit(goal, cb, s[0]) then s[0] else
      var m := First(goal, cb, s[1..]);
      FirstSkip(goal, cb, s, m);
      m
  }

  lemma FirstSkip(goal: Goal, cb: Node -> int, s: seq<Node>, m: Node?)
    requires s != [] && !Hit(goal, cb, s[0]) && IsFirst(goal, cb, s[1..], m)
    ensures IsFirst(goal, cb, s, m)
  {
  }

  lemma FirstUnique(goal: Goal, cb: Node -> int, s: seq<Node>, m: Node?, m': Node?)
    requires IsFirst(goal, cb, s, m) && IsFirst(goal, cb, s, m')
    ensures m == m'
  {
  }

  ghost function Last(cb: Node -> int, s: seq<Node>): (m: Node?)
    ensures IsLast(NotAbove, cb, s, m)
  {
    var k := |s| - 1;
    if s == [] then null else if cb(s[k]) >= 0 then s[k] else
      LastSkip(cb, s, Last(cb, s[..k]));
      Last(cb, s[..k])
  }

  lemma LastSkip(cb: Node -> int, s: seq<Node>, m: Node?)
    requires s != [] && cb(s[|s| - 1]) < 0 && IsLast(NotAbove, cb, s[..|s| - 1], m)
    ensures IsLast(NotAbove, cb, s, m)
  {
  }

  lemma LastUnique(cb: Node -> int, s: seq<Node>, m: Node?, m': Node?)
    requires IsLast(NotAbove, cb, s, m) && IsLast(NotAbove, cb, s, m')
    ensures m == m'
  {
  }

  ghost function OrElse(m: Node?, ret: Node?): Node? {
    if m == null then ret else m
  }

  /** The first hit in t is the first in u, or ret if u has none. */
  ghost predicate FirstIn(goal: Goal, cb: Node -> int, t: Tree, u: Tree, ret: Node?) {
    IsFirst(goal, cb, InOrder(t), OrElse(First(goal, cb, InOrder(u)), ret))
  }

  ghost predicate LastIn(cb: Node -> int, t: Tree, u: Tree, ret: Node?) {
    IsLast(NotAbove, cb, InOrder(t), OrElse(Last(cb, InOrder(u)), ret))
  }

  lemma FirstInStep(goal: Goal, cb: Node -> int, t: Tree, u: Tree, ret: Node?)
    requires u.Branch? && goal != NotAbove && Sorted(cb, InOrder(u)) && FirstIn(goal, cb, t, u, ret)
    ensures Sorted(cb, InOrder(u.l)) && Sorted(cb, InOrder(u.r))
    ensures Hit(goal, cb, u.node) ==> FirstIn(goal, cb, t, u.l, u.node)
    ensures cb(u.node) < 0 && goal == Equal ==> FirstIn(goal, cb, t, u.l, ret)
    ensures cb(u.node) > 0 ==> FirstIn(goal, cb, t, u.r, ret)
  {
    var a, x, b := InOrder(u.l), u.node, InOrder(u.r);
    assert InOrder(u) == a + [x] + b;
    var s, m := InOrder(u), OrElse(First(goal, cb, a), if Hit(goal, cb, x) then x else null);
    FirstStep(goal, cb, a, x, b, m);
    FirstStep(goal, cb, a, x, b, First(goal, cb, b));
    hide IsFirst, Sorted, First;
    if cb(x) > 0 {
      FirstUnique(goal, cb, s, First(goal, cb, s), First(goal, cb, b));
    } else {
      FirstUnique(goal, cb, s, First(goal, cb, s), m);
    }
  }

  lemma LastInStep(cb: Node -> int, t: Tree, u: Tree, ret: Node?)
    requires u.Branch? && Sorted(cb, InOrder(u)) && LastIn(cb, t, u, ret)
    ensures Sorted(cb, InOrder(u.l)) && Sorted(cb, InOrder(u.r))
    ensures cb(u.node) >= 0 ==> LastIn(cb, t, u.r, u.node)
    ensures cb(u.node) < 0 ==> LastIn(cb, t, u.l, ret)
  {
    var a, x, b := InOrder(u.l), u.node, InOrder(u.r);
    assert InOrder(u) == a + [x] + b;
    var s, m := InOrder(u), OrElse(Last(cb, b), x);
    LastStep(cb, a, x, b, m);
    LastStep(cb, a, x, b, Last(cb, a));
    hide IsLast, Sorted, Last;
    if cb(x) < 0 {
      LastUnique(cb, s, Last(cb, s), Last(cb, a));
    } else {
      LastUnique(cb, s, Last(cb, s), m);
    }
  }

  lemma FirstDone(goal: Goal, cb: Node -> int, t: Tree, ret: Node?)
    requires FirstIn(goal, cb, t, Leaf, ret)
    ensures IsFirst(goal, cb, InOrder(t), ret)
  {
  }

  lemma LastDone(cb: Node -> int, t: Tree, ret: Node?)
    requires LastIn(cb, t, Leaf, ret)
    ensures IsLast(NotAbove, cb, InOrder(t), ret)
  {
  }

  lemma FirstMeans(goal: Goal, cb: Node -> int, s: seq<Node>, m: Node?)
    requires IsFirst(goal, cb, s, m)
    ensures if m == null then forall x <- s :: !Hit(goal, cb, x) else m in s && Hit(goal, cb, m)
  {
  }

  lemma LastMeans(cb: Node -> int, s: seq<Node>, m: Node?)
    requires IsLast(NotAbove, cb, s, m)
    ensures if m == null then forall x <- s :: cb(x) < 0 else m in s && cb(m) >= 0
  {
  }

  /** search: the first node in order whose key is equal */
  method Search(root: Node?, cb: Node -> int, ghost t: Tree) returns (ret: Node?)
    requires Shape(t, root, null) && Sorted(cb, InOrder(t))
    ensures IsFirst(Equal, cb, InOrder(t), ret)
    ensures if ret == null then forall x <- InOrder(t) :: cb(x) != 0 else ret in InOrder(t) && cb(ret) == 0
  {
    hide IsFirst, Sorted, FirstIn;
    ret := null;
    var n := root;
    ghost var u, up: Node? := t, null;
    FirstInSelf(Equal, cb, t);
    while n != null
      invariant Shape(u, n, up) && Sorted(cb, InOrder(u)) && FirstIn(Equal, cb, t, u, ret)
      decreases u
    {
      FirstInStep(Equal, cb, t, u, ret);
      up := n;
      var srchres := cb(n);
      if srchres < 0 {
        u, n := u.l, n.left;
      } else if srchres > 0 {
        u, n := u.r, n.right;
      } else {
        ret := n;
        u, n := u.l, n.left;
      }
    }
    FirstDone(Equal, cb, t, ret);
    FirstMeans(Equal, cb, InOrder(t), ret);
  }

  lemma FirstInSelf(goal: Goal, cb: Node -> int, t: Tree)
    ensures FirstIn(goal, cb, t, t, null)
  {
  }

  lemma LastInSelf(cb: Node -> int, t: Tree)
    ensures LastIn(cb, t, t, null)
  {
  }

  /** lower_bound: the first node in order whose key is not below */
  method LowerBound(root: Node?, cb: Node -> int, ghost t: Tree) returns (ret: Node?)
    requires Shape(t, root, null) && Sorted(cb, InOrder(t))
    ensures IsFirst(NotBelow, cb, InOrder(t), ret)
    ensures if ret == null then forall x <- InOrder(t) :: cb(x) > 0 else ret in InOrder(t) && cb(ret) <= 0
  {
    hide IsFirst, Sorted, FirstIn;
    var n := root;
    ret := null;
    ghost var u, up: Node? := t, null;
    FirstInSelf(NotBelow, cb, t);
    while n != null
      invariant Shape(u, n, up) && Sorted(cb, InOrder(u)) && FirstIn(NotBelow, cb, t, u, ret)
      decreases u
    {
      FirstInStep(NotBelow, cb, t, u, ret);
      up := n;
      if cb(n) <= 0 {
        ret := n;
        u, n := u.l, n.left;
      } else {
        u, n := u.r, n.right;
      }
    }
    FirstDone(NotBelow, cb, t, ret);
    FirstMeans(NotBelow, cb, InOrder(t), ret);
  }

  /** upper_bound: the last node in order whose key is not above */
  method UpperBound(root: Node?, cb: Node -> int, ghost t: Tree) returns (ret: Node?)
    requires Shape(t, root, null) && Sorted(cb, InOrder(t))
    ensures IsLast(NotAbove, cb, InOrder(t), ret)
    ensures if ret == null then forall x <- InOrder(t) :: cb(x) < 0 else ret in InOrder(t) && cb(ret) >= 0
  {
    hide IsLast, Sorted, LastIn;
    var n := root;
    ret := null;
    ghost var u, up: Node? := t, null;
    LastInSelf(cb, t);
    while n != null
      invariant Shape(u, n, up) && Sorted(cb, InOrder(u)) && LastIn(cb, t, u, ret)
      decreases u
    {
      LastInStep(cb, t, u, ret);
      up := n;
      if cb(n) >= 0 {
        ret := n;
        u, n := u.r, n.right;
      } else {
        u, n := u.l, n.left;
      }
    }
    LastDone(cb, t, ret);
    LastMeans(cb, InOrder(t), ret);
  }
}
