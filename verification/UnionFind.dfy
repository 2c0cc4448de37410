/**
 Weighted quick-union: the parent forest in an array, unions by size. The forest is shown to
 represent the smallest equivalence relation that contains the united pairs, with
 trees of logarithmic depth.
 */
module UnionFind {
  import opened FiniteSets
  import opened Powers

  // ---------------------------------------------------------------- connectivity

  type Pair = (nat, nat)

  ghost predicate Linked(pairs: set<Pair>, x: nat, y: nat) {
    (x, y) in pairs || (y, x) in pairs
  }

  ghost predicate IsPath(pairs: set<Pair>, path: seq<nat>) {
    path != [] && forall i :: 0 <= i < |path| - 1 ==> Linked(pairs, path[i], path[i + 1])
  }

  /** x and y are connected by a path of united pairs. */
  ghost predicate Connected(pairs: set<Pair>, x: nat, y: nat) {
    exists path :: IsPath(pairs, path) && path[0] == x && path[|path| - 1] == y
  }

  ghost predicate Equivalence(r: (nat, nat) -> bool) {
    && (forall x :: r(x, x))
    && (forall x, y :: r(x, y) ==> r(y, x))
    && (forall x, y, z :: r(x, y) && r(y, z) ==> r(x, z))
  }

  lemma ConnectedReflexive(pairs: set<Pair>, x: nat)
    ensures Connected(pairs, x, x)
  {
    assert IsPath(pairs, [x]);
  }

  lemma ConnectedLink(pairs: set<Pair>, x: nat, y: nat)
    requires Linked(pairs, x, y)
    ensures Connected(pairs, x, y)
  {
    var path := [x, y];
    assert IsPath(pairs, path) && path[0] == x && path[|path| - 1] == y;
  }

  lemma ConnectedTransitive(pairs: set<Pair>, x: nat, y: nat, z: nat)
    requires Connected(pairs, x, y) && Connected(pairs, y, z)
    ensures Connected(pairs, x, z)
  {
    var p :| IsPath(pairs, p) && p[0] == x && p[|p| - 1] == y;
    var q :| IsPath(pairs, q) && q[0] == y && q[|q| - 1] == z;
    var r := p + q[1..];
    forall i | 0 <= i < |r| - 1
      ensures Linked(pairs, r[i], r[i + 1])
    {
      if i >= |p| - 1 {
        assert Linked(pairs, q[i - |p| + 1], q[i - |p| + 2]);
      }
    }
    assert IsPath(pairs, r) && r[0] == x && r[|r| - 1] == z;
  }

  lemma ConnectedSymmetric(pairs: set<Pair>, x: nat, y: nat)
    requires Connected(pairs, x, y)
    ensures Connected(pairs, y, x)
  {
    var p :| IsPath(pairs, p) && p[0] == x && p[|p| - 1] == y;
    var r := seq(|p|, i requires 0 <= i < |p| => p[|p| - 1 - i]);
    forall i | 0 <= i < |r| - 1
      ensures Linked(pairs, r[i], r[i + 1])
    {
      assert Linked(pairs, p[|p| - 2 - i], p[|p| - 1 - i]);
    }
    assert IsPath(pairs, r) && r[0] == y && r[|r| - 1] == x;
  }

  lemma ConnectedGrows(pairs: set<Pair>, pairs': set<Pair>, x: nat, y: nat)
    requires pairs <= pairs' && Connected(pairs, x, y)
    ensures Connected(pairs', x, y)
  {
  }

  lemma {:induction false} RelatedAlongPath(pairs: set<Pair>, r: (nat, nat) -> bool, path: seq<nat>)
    requires Equivalence(r) && (forall p: Pair :: p in pairs ==> r(p.0, p.1)) && IsPath(pairs, path)
    ensures r(path[0], path[|path| - 1])
  {
    if |path| > 1 {
      var front := path[..|path| - 1];
      assert forall i :: 0 <= i < |front| - 1 ==> Linked(pairs, path[i], path[i + 1]);
      RelatedAlongPath(pairs, r, front);
      assert Linked(pairs, path[|path| - 2], path[|path| - 1]);
      var x, y := path[|path| - 2], path[|path| - 1];
      if (x, y) in pairs { assert r((x, y).0, (x, y).1); } else { assert r((y, x).0, (y, x).1); }
    }
  }

  /** Connected is an equivalence that contains the pairs, and every other such relation contains it. */
  lemma ConnectedIsSmallest(pairs: set<Pair>, r: (nat, nat) -> bool)
    requires Equivalence(r) && forall p: Pair :: p in pairs ==> r(p.0, p.1)
    ensures Equivalence((x: nat, y: nat) => Connected(pairs, x, y))
    ensures forall p: Pair :: p in pairs ==> Connected(pairs, p.0, p.1)
    ensures forall x, y :: Connected(pairs, x, y) ==> r(x, y)
  {
    ConnectedIsEquivalence(pairs);
    hide Connected;
    forall x, y | Connected(pairs, x, y) ensures r(x, y) {
      ConnectedRelated(pairs, r, x, y);
    }
  }

  lemma ConnectedIsEquivalence(pairs: set<Pair>)
    ensures Equivalence((x: nat, y: nat) => Connected(pairs, x, y))
    ensures forall p: Pair :: p in pairs ==> Connected(pairs, p.0, p.1)
  {
    hide Connected;
    forall x ensures Connected(pairs, x, x) { ConnectedReflexive(pairs, x); }
    forall x, y | Connected(pairs, x, y) ensures Connected(pairs, y, x) { ConnectedSymmetric(pairs, x, y); }
    forall x, y, z | Connected(pairs, x, y) && Connected(pairs, y, z) ensures Connected(pairs, x, z) {
      ConnectedTransitive(pairs, x, y, z);
    }
    forall p: Pair | p in pairs ensures Connected(pairs, p.0, p.1) {
      assert p == (p.0, p.1);
      ConnectedLink(pairs, p.0, p.1);
    }
  }

  lemma ConnectedRelated(pairs: set<Pair>, r: (nat, nat) -> bool, x: nat, y: nat)
    requires Equivalence(r) && (forall p: Pair :: p in pairs ==> r(p.0, p.1)) && Connected(pairs, x, y)
    ensures r(x, y)
  {
    var p :| IsPath(pairs, p) && p[0] == x && p[|p| - 1] == y;
    RelatedAlongPath(pairs, r, p);
  }

  // ---------------------------------------------------------------- the forest

  ghost function Class(root: seq<nat>, r: nat): set<nat> {
    set i | 0 <= i < |root| && root[i] == r
  }

  ghost function Roots(parent: seq<nat>): set<nat> {
    set i | 0 <= i < |parent| && parent[i] == i
  }

  /** The links of site i lead to root[i] in depth[i] steps. */
  ghost predicate Leads(parent: seq<nat>, root: seq<nat>, depth: seq<nat>, i: nat)
    requires |root| == |depth| == |parent| && i < |parent|
  {
    && parent[i] < |parent| && root[i] < |parent| && parent[root[i]] == root[i]
    && (parent[i] == i ==> root[i] == i && depth[i] == 0)
    && (parent[i] != i ==> root[i] == root[parent[i]] && depth[i] == depth[parent[i]] + 1)
  }

  ghost predicate Forest(parent: seq<nat>, root: seq<nat>, depth: seq<nat>) {
    && |root| == |depth| == |parent|
    && forall i :: 0 <= i < |parent| ==> Leads(parent, root, depth, i)
  }

  /** The size of a root is the cardinality of its tree. */
  ghost predicate Sized(parent: seq<nat>, size: seq<nat>, root: seq<nat>) {
    |size| == |parent| && forall i :: 0 <= i < |parent| && parent[i] == i ==> size[i] == |Class(root, i)|
  }

  /** A tree is at least exponential in the depth of each of its sites. */
  ghost predicate Balanced(size: seq<nat>, root: seq<nat>, depth: seq<nat>) {
    && |size| == |root| == |depth|
    && forall i :: 0 <= i < |root| ==> root[i] < |size| && Pow2(depth[i]) <= size[root[i]]
  }

  ghost predicate Partition(root: seq<nat>, pairs: set<Pair>) {
    forall x, y :: 0 <= x < |root| && 0 <= y < |root| ==> (root[x] == root[y] <==> Connected(pairs, x, y))
  }

  /** The roots after the tree of a is hung below b. */
  ghost function Rehung(root: seq<nat>, a: nat, b: nat): (r: seq<nat>)
    ensures |r| == |root| && forall i :: 0 <= i < |root| ==> r[i] == if root[i] == a then b else root[i]
  {
    seq(|root|, i requires 0 <= i < |root| => if root[i] == a then b else root[i])
  }

  ghost function Deeper(root: seq<nat>, depth: seq<nat>, a: nat): (r: seq<nat>)
    requires |root| == |depth|
    ensures |r| == |root| && forall i :: 0 <= i < |root| ==> r[i] == depth[i] + if root[i] == a then 1 else 0
  {
    seq(|root|, i requires 0 <= i < |root| => depth[i] + if root[i] == a then 1 else 0)
  }

  lemma HangForest(parent: seq<nat>, root: seq<nat>, depth: seq<nat>, a: nat, b: nat)
    requires Forest(parent, root, depth) && a < |parent| && b < |parent| && a != b && parent[a] == a && parent[b] == b
    ensures Forest(parent[a := b], Rehung(root, a, b), Deeper(root, depth, a))
  {
    var parent', root', depth' := parent[a := b], Rehung(root, a, b), Deeper(root, depth, a);
    forall i | 0 <= i < |parent'|
      ensures Leads(parent', root', depth', i)
    {
      assert Leads(parent, root, depth, i) && Leads(parent, root, depth, a) && Leads(parent, root, depth, b);
    }
  }

  lemma HangRoots(parent: seq<nat>, a: nat, b: nat)
    requires a < |parent| && b < |parent| && a != b && parent[a] == a
    ensures Roots(parent[a := b]) == Roots(parent) - {a} && a in Roots(parent)
    ensures |Roots(parent[a := b])| == |Roots(parent)| - 1
  {
  }

  lemma HangClasses(root: seq<nat>, a: nat, b: nat, r: nat)
    requires a != b && r != a
    ensures r != b ==> Class(Rehung(root, a, b), r) == Class(root, r)
    ensures r == b ==> Class(Rehung(root, a, b), r) == Class(root, a) + Class(root, b) && Class(root, a) !! Class(root, b)
  {
  }

  lemma HangSized(parent: seq<nat>, size: seq<nat>, root: seq<nat>, a: nat, b: nat)
    requires Sized(parent, size, root)
    requires a < |parent| && b < |parent| && a != b && parent[a] == a && parent[b] == b
    ensures Sized(parent[a := b], size[b := size[b] + size[a]], Rehung(root, a, b))
  {
    var parent', size', root' := parent[a := b], size[b := size[b] + size[a]], Rehung(root, a, b);
    forall i | 0 <= i < |parent'| && parent'[i] == i
      ensures size'[i] == |Class(root', i)|
    {
      HangClasses(root, a, b, i);
    }
  }

  /** A site that gets deeper is in the smaller tree, so its tree at least doubles. */
  lemma HangBalanced(size: seq<nat>, root: seq<nat>, depth: seq<nat>, a: nat, b: nat)
    requires Balanced(size, root, depth) && a < |size| && b < |size| && a != b && size[a] <= size[b]
    ensures Balanced(size[b := size[b] + size[a]], Rehung(root, a, b), Deeper(root, depth, a))
  {
    var size', root', depth' := size[b := size[b] + size[a]], Rehung(root, a, b), Deeper(root, depth, a);
    forall i | 0 <= i < |root'|
      ensures root'[i] < |size'| && Pow2(depth'[i]) <= size'[root'[i]]
    {
      assert Pow2(depth[i]) <= size[root[i]];
      assert Pow2(depth[i] + 1) == 2 * Pow2(depth[i]);
    }
  }

  /** A new pair connects exactly the two classes it joins. */
  lemma HangPartition(root: seq<nat>, pairs: set<Pair>, p: nat, q: nat, a: nat, b: nat)
    requires Partition(root, pairs) && p < |root| && q < |root|
    requires a != b && ((root[p] == a && root[q] == b) || (root[p] == b && root[q] == a))
    requires forall e: Pair :: e in pairs ==> e.0 < |root| && e.1 < |root|
    ensures Partition(Rehung(root, a, b), pairs + {(p, q)})
  {
    var root', pairs' := Rehung(root, a, b), pairs + {(p, q)};
    forall x, y | 0 <= x < |root| && 0 <= y < |root|
      ensures root'[x] == root'[y] <==> Connected(pairs', x, y)
    {
      if root'[x] == root'[y] {
        HangConnects(root, pairs, p, q, a, b, x, y);
      }
      if Connected(pairs', x, y) {
        var path :| IsPath(pairs', path) && path[0] == x && path[|path| - 1] == y;
        HangSeparates(root, pairs, p, q, a, b, path);
      }
    }
  }

  lemma HangConnects(root: seq<nat>, pairs: set<Pair>, p: nat, q: nat, a: nat, b: nat, x: nat, y: nat)
    requires Partition(root, pairs) && p < |root| && q < |root| && x < |root| && y < |root|
    requires (root[p] == a && root[q] == b) || (root[p] == b && root[q] == a)
    requires Rehung(root, a, b)[x] == Rehung(root, a, b)[y]
    ensures Connected(pairs + {(p, q)}, x, y)
  {
    var pairs' := pairs + {(p, q)};
    if root[x] == root[y] {
      ConnectedGrows(pairs, pairs', x, y);
    } else {
      var (u, v) := if root[x] == root[p] then (p, q) else (q, p);
      assert root[x] == root[u] && root[y] == root[v];
      ConnectedGrows(pairs, pairs', x, u);
      ConnectedLink(pairs', u, v);
      ConnectedGrows(pairs, pairs', v, y);
      ConnectedTransitive(pairs', x, u, v);
      ConnectedTransitive(pairs', x, v, y);
    }
  }

  lemma {:induction false} HangSeparates(root: seq<nat>, pairs: set<Pair>, p: nat, q: nat, a: nat, b: nat, path: seq<nat>)
    requires Partition(root, pairs) && p < |root| && q < |root|
    requires (root[p] == a && root[q] == b) || (root[p] == b && root[q] == a)
    requires forall e: Pair :: e in pairs ==> e.0 < |root| && e.1 < |root|
    requires IsPath(pairs + {(p, q)}, path) && path[0] < |root|
    ensures path[|path| - 1] < |root| && Rehung(root, a, b)[path[0]] == Rehung(root, a, b)[path[|path| - 1]]
  {
    if |path| > 1 {
      var front := path[..|path| - 1];
      assert forall i :: 0 <= i < |front| - 1 ==> Linked(pairs + {(p, q)}, path[i], path[i + 1]);
      HangSeparates(root, pairs, p, q, a, b, front);
      var x, y := path[|path| - 2], path[|path| - 1];
      assert Linked(pairs + {(p, q)}, x, y);
      if Linked(pairs, x, y) {
        assert (x, y) in pairs ==> (x, y).1 < |root|;
        assert (y, x) in pairs ==> (y, x).0 < |root|;
        ConnectedLink(pairs, x, y);
      } else {
        assert (x, y) == (p, q) || (y, x) == (p, q);
      }
    }
  }

  /** Depths are logarithmic. */
  lemma DepthBound(parent: seq<nat>, size: seq<nat>, root: seq<nat>, depth: seq<nat>, x: nat)
    requires Forest(parent, root, depth) && Sized(parent, size, root) && Balanced(size, root, depth) && x < |parent|
    ensures Pow2(depth[x]) <= size[root[x]] <= |parent| && depth[x] <= Log2(|parent|)
  {
    var r := root[x];
    assert Leads(parent, root, depth, x);
    SubsetSize(Class(root, r), Below(|root|));
    Log2Bound(|parent|, depth[x]);
  }

  lemma OneUp(parent: seq<nat>, root: seq<nat>, depth: seq<nat>, x: nat)
    requires Forest(parent, root, depth) && x < |parent|
    ensures parent[x] < |parent|
    ensures parent[x] != x ==> root[parent[x]] == root[x] && depth[x] == depth[parent[x]] + 1
    ensures parent[x] == x ==> root[x] == x && depth[x] == 0
  {
    assert Leads(parent, root, depth, x);
  }

  /** Uniting two connected sites changes nothing. */
  lemma SamePair(root: seq<nat>, pairs: set<Pair>, p: nat, q: nat)
    requires Partition(root, pairs) && p < |root| && q < |root| && root[p] == root[q]
    ensures Partition(root, pairs + {(p, q)})
  {
    var pairs' := pairs + {(p, q)};
    forall x, y | 0 <= x < |root| && 0 <= y < |root|
      ensures root[x] == root[y] <==> Connected(pairs', x, y)
    {
      if Connected(pairs, x, y) {
        ConnectedGrows(pairs, pairs', x, y);
      }
      if Connected(pairs', x, y) {
        var path :| IsPath(pairs', path) && path[0] == x && path[|path| - 1] == y;
        DetourFree(pairs, p, q, path);
      }
    }
  }

  lemma {:induction false} DetourFree(pairs: set<Pair>, p: nat, q: nat, path: seq<nat>)
    requires Connected(pairs, p, q) && IsPath(pairs + {(p, q)}, path)
    ensures Connected(pairs, path[0], path[|path| - 1])
  {
    if |path| == 1 {
      ConnectedReflexive(pairs, path[0]);
    } else {
      var front := path[..|path| - 1];
      assert forall i :: 0 <= i < |front| - 1 ==> Linked(pairs + {(p, q)}, path[i], path[i + 1]);
      DetourFree(pairs, p, q, front);
      var x, y := path[|path| - 2], path[|path| - 1];
      assert Linked(pairs + {(p, q)}, x, y);
      if Linked(pairs, x, y) {
        ConnectedLink(pairs, x, y);
      } else if x == q {
        ConnectedSymmetric(pairs, p, q);
      }
      ConnectedTransitive(pairs, path[0], x, y);
    }
  }

  /** Everything that holds between the arrays and what they represent. */
  ghost predicate Represents(parent: seq<nat>, size: seq<nat>, count: nat, root: seq<nat>, depth: seq<nat>, pairs: set<Pair>) {
    && Forest(parent, root, depth) && Sized(parent, size, root) && Balanced(size, root, depth)
    && Partition(root, pairs) && (forall e: Pair :: e in pairs ==> e.0 < |root| && e.1 < |root|)
    && count == |Roots(parent)|
  }

  lemma RepresentsInit(n: nat, parent: seq<nat>, size: seq<nat>, root: seq<nat>, depth: seq<nat>)
    requires |parent| == |size| == |root| == |depth| == n
    requires forall i :: 0 <= i < n ==> parent[i] == root[i] == i && size[i] == 1 && depth[i] == 0
    ensures Represents(parent, size, n, root, depth, {})
  {
    assert forall i :: 0 <= i < n ==> Class(root, i) == {i};
    forall x, y | 0 <= x < n && 0 <= y < n
      ensures root[x] == root[y] <==> Connected({}, x, y)
    {
      if x == y {
        ConnectedReflexive({}, x);
      }
      if Connected({}, x, y) {
        var p :| IsPath({}, p) && p[0] == x && p[|p| - 1] == y;
        assert |p| > 1 ==> Linked({}, p[0], p[1]);
      }
    }
    assert Roots(parent) == Below(n);
  }

  /** One union of two different trees. */
  lemma RepresentsHang(parent: seq<nat>, size: seq<nat>, count: nat, root: seq<nat>, depth: seq<nat>, pairs: set<Pair>,
                       a: nat, b: nat, p: nat, q: nat)
    requires Represents(parent, size, count, root, depth, pairs) && p < |parent| && q < |parent|
    requires a < |parent| && b < |parent| && a != b && size[a] <= size[b]
    requires (root[p] == a && root[q] == b) || (root[p] == b && root[q] == a)
    ensures count > 0
    ensures Represents(parent[a := b], size[b := size[b] + size[a]], count - 1,
                       Rehung(root, a, b), Deeper(root, depth, a), pairs + {(p, q)})
  {
    assert Leads(parent, root, depth, p) && Leads(parent, root, depth, q);
    HangForest(parent, root, depth, a, b);
    HangSized(parent, size, root, a, b);
    HangBalanced(size, root, depth, a, b);
    HangPartition(root, pairs, p, q, a, b);
    HangRoots(parent, a, b);
  }

  // ---------------------------------------------------------------- the data structure

  datatype Result<+T> = Ok(value: T) | IndexOutOfBounds

  class WeightedQuickUnion {
    var parent: array<nat>  // parent[i] = parent of i
    var size: array<nat>    // size[i] = number of sites in subtree rooted at i
    var count: nat          // number of components
    ghost var root: seq<nat>
    ghost var depth: seq<nat>
    ghost var pairs: set<Pair>  // all the pairs united so far

    ghost predicate Valid()
      reads this, parent, size
    {
      && parent != size && parent.Length == size.Length == |root|
      && Represents(parent[..], size[..], count, root, depth, pairs)
    }

    constructor (n: nat)
      ensures Valid() && fresh(parent) && fresh(size) && parent.Length == n && count == n && pairs == {}
    {
      count := n;
      parent := new nat[n](i => i);
      size := new nat[n](_ => 1);
      root := seq(n, i => i);
      depth := seq(n, _ => 0);
      pairs := {};
      new;
      RepresentsInit(n, parent[..], size[..], root, depth);
    }

    /** find: follows depth[p] links, which is at most log2 of the number of sites. */
    method Find(p: int) returns (r: Result<nat>, ghost steps: nat)
      requires Valid()
      ensures r.IndexOutOfBounds? <==> !(0 <= p < parent.Length)
      ensures r.Ok? ==> r.value == root[p] && r.value < parent.Length
      ensures r.Ok? ==> steps == depth[p] && Pow2(steps) <= size[root[p]] && steps <= Log2(parent.Length)
    {
      steps := 0;
      if p < 0 || p >= parent.Length {
        return IndexOutOfBounds, 0;
      }
      var x: nat := p;
      while x != parent[x]
        invariant x < parent.Length && root[x] == root[p] && steps + depth[x] == depth[p]
        decreases depth[x]
      {
        OneUp(parent[..], root, depth, x);
        x := parent[x];
        steps := steps + 1;
      }
      OneUp(parent[..], root, depth, x);
      DepthBound(parent[..], size[..], root, depth, p);
      r := Ok(x);
    }

    /** connected: exactly the smallest equivalence relation that contains the united pairs. */
    method IsConnected(p: int, q: int) returns (r: Result<bool>)
      requires Valid()
      ensures r.IndexOutOfBounds? <==> !(0 <= p < parent.Length && 0 <= q < parent.Length)
      ensures r.Ok? ==> (r.value <==> Connected(pairs, p, q))
    {
      var rp, sp := Find(p);
      var rq, sq := Find(q);
      if rp.IndexOutOfBounds? || rq.IndexOutOfBounds? {
        return IndexOutOfBounds;
      }
      r := Ok(rp.value == rq.value);
    }

    /** union: the pair is added to the united ones, and count stays the number of classes. */
    method Union(p: int, q: int) returns (r: Result<()>)
      requires Valid()
      modifies this`count, this`root, this`depth, this`pairs, parent, size
      ensures Valid() && parent == old(parent) && size == old(size)
      ensures r.IndexOutOfBounds? <==> !(0 <= p < parent.Length && 0 <= q < parent.Length)
      ensures r.IndexOutOfBounds? ==> pairs == old(pairs) && parent[..] == old(parent[..])
      ensures r.Ok? ==> pairs == old(pairs) + {(p as nat, q as nat)}
      ensures r.Ok? ==> count == old(count) - if old(Connected(pairs, p, q)) then 0 else 1
    {
      var rp, sp := Find(p);
      var rq, sq := Find(q);
      if rp.IndexOutOfBounds? || rq.IndexOutOfBounds? {
        return IndexOutOfBounds;
      }
      r := Ok(());
      var rootP, rootQ := rp.value, rq.value;
      if rootP == rootQ {
        SamePair(root, pairs, p, q);
        pairs := pairs + {(p as nat, q as nat)};
        return;
      }
      if size[rootP] < size[rootQ] {
        Hang(rootP, rootQ, p, q);
      } else {
        Hang(rootQ, rootP, p, q);
      }
    }

    /** Makes b the parent of the root a. */
    method Hang(a: nat, b: nat, ghost p: nat, ghost q: nat)
      requires Valid() && p < parent.Length && q < parent.Length && a < parent.Length && b < parent.Length
      requires a != b && size[a] <= size[b]
      requires (root[p] == a && root[q] == b) || (root[p] == b && root[q] == a)
      modifies this`count, this`root, this`depth, this`pairs, parent, size
      ensures Valid() && pairs == old(pairs) + {(p, q)} && count == old(count) - 1
    {
      ghost var ps, ss := parent[..], size[..];
      RepresentsHang(ps, ss, count, root, depth, pairs, a, b, p, q);
      parent[a] := b;
      size[b] := size[b] + size[a];
      count := count - 1;
      assert parent[..] == ps[a := b] && size[..] == ss[b := ss[b] + ss[a]];
      root, depth, pairs := Rehung(root, a, b), Deeper(root, depth, a), pairs + {(p, q)};
    }
  }
}
