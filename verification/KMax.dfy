/**
 K_max: the k-th largest entry of a vector, found by passes that each take the largest value
 below the last one, with its multiplicity. PBFT applies it to the views of the replicas.
 */
module KMax {
  import opened FiniteSets

  /** How many entries are x or more */
  ghost function AtLeast(v: seq<int>, x: int): (c: nat)
    ensures c <= |v|
  {
    if v == [] then 0 else AtLeast(v[..|v| - 1], x) + if v[|v| - 1] >= x then 1 else 0
  }

  /** How many entries are x */
  ghost function Equal(v: seq<int>, x: int): (c: nat) {
    if v == [] then 0 else Equal(v[..|v| - 1], x) + if v[|v| - 1] == x then 1 else 0
  }

  /** The largest of start and the entries below last */
  ghost function BestBelow(v: seq<int>, start: int, last: int): (m: int)
    ensures m >= start
    ensures m == start || m in v
    ensures m < last || m == start
    ensures forall i :: 0 <= i < |v| && v[i] < last ==> v[i] <= m
  {
    if v == [] then start else
      var m, x := BestBelow(v[..|v| - 1], start, last), v[|v| - 1];
      assert v == v[..|v| - 1] + [x];
      if m < x < last then x else m
  }

  lemma AtLeastStep(v: seq<int>, x: int)
    ensures AtLeast(v, x) == Equal(v, x) + AtLeast(v, x + 1)
  {
    if v != [] { AtLeastStep(v[..|v| - 1], x); }
  }

  /** No entry between x and y: as many entries from the one as from the other. */
  lemma AtLeastGap(v: seq<int>, x: int, y: int)
    requires x <= y && forall i :: 0 <= i < |v| ==> v[i] < x || v[i] >= y
    ensures AtLeast(v, x) == AtLeast(v, y)
  {
  }

  lemma EqualNone(v: seq<int>, x: int)
    requires x !in v
    ensures Equal(v, x) == 0
  {
  }

  lemma AtLeastAll(v: seq<int>, x: int)
    ensures AtLeast(v, x) == |v| <==> forall i :: 0 <= i < |v| ==> v[i] >= x
  {
  }

  /** One pass: the inner loop, which counts entries equal to the best so far. */
  method Pass(v: array<int>, start: int, last: int) returns (curMax: int, curCount: nat)
    ensures curMax == BestBelow(v[..], start, last)
    ensures curCount == Equal(v[..], curMax)
  {
    curMax, curCount := start, 0;
    var i := 0;
    while i < v.Length
      invariant i <= v.Length
      invariant curMax == BestBelow(v[..i], start, last) && curCount == Equal(v[..i], curMax)
    {
      var cv := v[i];
      assert v[..i + 1] == v[..i] + [cv] && v[..i + 1][..i] == v[..i];
      if cv == curMax {
        curCount := curCount + 1;
      } else if cv > curMax {
        if cv < last {
          EqualNone(v[..i], cv);
          curCount := 1;
          curMax := cv;
        }
      }
      i := i + 1;
    }
    assert v[..i] == v[..];
  }

  // ---------------------------------------------------------------- the k-th largest entry

  ghost predicate IsKthLargest(v: seq<int>, k: nat, r: int) {
    AtLeast(v, r) >= k && AtLeast(v, r + 1) < k
  }

  lemma AtLeastFalls(v: seq<int>, x: int, y: int)
    requires x <= y
    ensures AtLeast(v, y) <= AtLeast(v, x)
  {
  }

  /** The k-th largest entry is the largest value that k entries reach. */
  lemma KthIsMaximal(v: seq<int>, k: nat, r: int, x: int)
    requires IsKthLargest(v, k, r)
    ensures AtLeast(v, x) >= k <==> x <= r
  {
    if x <= r { AtLeastFalls(v, x, r); } else { AtLeastFalls(v, r + 1, x); }
  }

  /** After a pass, the entries from the new value on are those from the old one on and its equals. */
  lemma PassCounts(v: seq<int>, start: int, last: int)
    requires start < last
    ensures AtLeast(v, BestBelow(v, start, last)) == Equal(v, BestBelow(v, start, last)) + AtLeast(v, last)
  {
    var m := BestBelow(v, start, last);
    AtLeastStep(v, m);
    AtLeastGap(v, m + 1, last);
  }

  lemma AllBelow(v: seq<int>, x: int)
    requires forall i :: 0 <= i < |v| ==> v[i] < x
    ensures AtLeast(v, x) == 0
  {
  }

  // ---------------------------------------------------------------- when the passes end

  datatype State = State(last: int, count: nat)

  /** lastMax and lastCount after j passes */
  ghost function Passes(v: seq<int>, tmax: int, j: nat): State {
    if j == 0 then State(tmax, 0) else
      var s := Passes(v, tmax, j - 1);
      var m := BestBelow(v, if j == 1 then -1 else 0, s.last);
      State(m, s.count + Equal(v, m))
  }

  /** Without a zero in the vector, the passes count the entries below tmax and no more. */
  lemma {:induction false} PassesCount(v: seq<int>, tmax: int, j: nat)
    requires tmax >= 0 && 0 !in v && forall i :: 0 <= i < |v| ==> 0 <= v[i] <= tmax
    ensures var s := Passes(v, tmax, j);
            s.count == AtLeast(v, s.last) - AtLeast(v, tmax) && s.last <= tmax && (j > 0 ==> s.last >= -1)
  {
    if j > 0 {
      PassesCount(v, tmax, j - 1);
      var s, start := Passes(v, tmax, j - 1), if j == 1 then -1 else 0;
      if start < s.last {
        PassCounts(v, start, s.last);
      } else {
        EqualNone(v, 0);
        AtLeastGap(v, s.last, 0);
      }
    }
  }

  /** With enough entries below tmax, or a zero, the passes reach a count of k. */
  lemma {:induction false} PassesReach(v: seq<int>, tmax: int, k: nat, j: nat) returns (i: nat)
    requires tmax >= 0 && forall i :: 0 <= i < |v| ==> 0 <= v[i] <= tmax
    requires k <= |v| - AtLeast(v, tmax) || 0 in v
    requires j > 0 && Passes(v, tmax, j).last >= -1
    ensures Passes(v, tmax, i).count >= k
    decreases if Passes(v, tmax, j).last > 0 then Passes(v, tmax, j).last else 0, k - Passes(v, tmax, j).count
  {
    var s := Passes(v, tmax, j);
    if s.count >= k {
      i := j;
    } else if s.last > 0 {
      i := PassesReach(v, tmax, k, j + 1);
    } else if 0 in v {
      EqualSome(v, 0);
      i := PassesReach(v, tmax, k, j + 1);
    } else {
      PassesCount(v, tmax, j);
      AtLeastAll(v, s.last);
      i := j;
    }
  }

  lemma EqualSome(v: seq<int>, x: int)
    requires x in v
    ensures Equal(v, x) > 0
  {
  }

  /** The loop ends exactly when k entries are below tmax or some entry is zero; entries equal to tmax are never counted. */
  lemma EndsIff(v: seq<int>, tmax: int, k: nat)
    requires tmax >= 0 && forall i :: 0 <= i < |v| ==> 0 <= v[i] <= tmax
    ensures (exists j :: Passes(v, tmax, j).count >= k) <==> k <= |v| - AtLeast(v, tmax) || 0 in v
  {
    if k <= |v| - AtLeast(v, tmax) || 0 in v {
      var i := PassesReach(v, tmax, k, 1);
    } else {
      forall j: nat ensures Passes(v, tmax, j).count < k { PassesCount(v, tmax, j); }
    }
  }

  /** As long as the value is above zero, the count is that of the entries from it on, but for those equal to tmax. */
  lemma {:induction false} PassesSound(v: seq<int>, tmax: int, j: nat)
    requires tmax >= 0 && forall i :: 0 <= i < |v| ==> 0 <= v[i] <= tmax
    ensures var s := Passes(v, tmax, j);
            && s.last <= tmax && (j > 0 ==> s.last >= -1)
            && (s.last > 0 ==> s.count == AtLeast(v, s.last) - AtLeast(v, tmax))
  {
    if j > 0 {
      PassesSound(v, tmax, j - 1);
      var s, start := Passes(v, tmax, j - 1), if j == 1 then -1 else 0;
      if start < s.last { PassCounts(v, start, s.last); }
    }
  }

  /** A pass from a value above zero goes below it; one from zero counts the zeros again. */
  lemma PassesStep(v: seq<int>, tmax: int, j: nat)
    requires tmax >= 0 && forall i :: 0 <= i < |v| ==> 0 <= v[i] <= tmax
    ensures var s, t := Passes(v, tmax, j), Passes(v, tmax, j + 1);
            && t.count >= s.count && (s.last > 0 ==> t.last < s.last)
            && (j > 0 && s.last <= 0 ==> t.last == 0 && t.count == s.count + Equal(v, 0))
  {
  }

  /** Without an entry equal to tmax, the pass that reaches a count of k is at the k-th largest entry. */
  lemma PassesKth(v: seq<int>, tmax: int, k: nat, j: nat)
    requires 1 <= k <= |v| && forall i :: 0 <= i < |v| ==> 0 <= v[i] < tmax
    requires Passes(v, tmax, j).count >= k && forall i :: 0 <= i < j ==> Passes(v, tmax, i).count < k
    ensures IsKthLargest(v, k, Passes(v, tmax, j).last) && Passes(v, tmax, j).last in v
  {
    hide AtLeast, Equal, BestBelow;
    AllBelow(v, tmax);
    assert j > 0;
    var s, start := Passes(v, tmax, j - 1), if j == 1 then -1 else 0;
    assert s.count < k;
    LastAbove(v, tmax, k, j - 1);
    PassesSound(v, tmax, j - 1);
    AtLeastAll(v, s.last);
    var r := BestBelow(v, start, s.last);
    assert Passes(v, tmax, j).last == r;
    hide Passes;
    PassCounts(v, start, s.last);
    AtLeastStep(v, r);
  }

  /** Before k entries are counted, the value is above zero. */
  lemma {:induction false} LastAbove(v: seq<int>, tmax: int, k: nat, j: nat)
    requires 1 <= k <= |v| && forall i :: 0 <= i < |v| ==> 0 <= v[i] < tmax
    requires Passes(v, tmax, j).count < k && forall i :: 0 <= i < j ==> Passes(v, tmax, i).count < k
    ensures Passes(v, tmax, j).last > 0 && AtLeast(v, Passes(v, tmax, j).last) < k
  {
    AllBelow(v, tmax);
    if j > 0 {
      LastAbove(v, tmax, k, j - 1);
      var s, start := Passes(v, tmax, j - 1), if j == 1 then -1 else 0;
      PassesSound(v, tmax, j - 1);
      PassCounts(v, start, s.last);
      AtLeastAll(v, Passes(v, tmax, j).last);
    }
  }

  /**
   K_max, wherever its loop ends: at least k entries are as large as the result, which is the k-th
   largest entry if none equals tmax. For k below one there is nothing to count, and tmax comes back.
   */
  method KMax(k: int, v: array<int>, tmax: int) returns (r: int)
    requires k <= v.Length && tmax >= 0 && forall i :: 0 <= i < v.Length ==> 0 <= v[i] <= tmax
    requires k <= v.Length - AtLeast(v[..], tmax) || 0 in v[..]
    ensures if k < 1 then r == tmax else AtLeast(v[..], r) >= k
    ensures k >= 1 && (forall i :: 0 <= i < v.Length ==> v[i] < tmax) ==> IsKthLargest(v[..], k, r) && r in v[..]
  {
    hide AtLeast, Equal, BestBelow, IsKthLargest;
    var lastMax, lastCount: nat, start := tmax, 0, -1;
    ghost var s, j := v[..], 0;
    while lastCount < k
      invariant State(lastMax, lastCount) == Passes(s, tmax, j) && start == (if j == 0 then -1 else 0)
      invariant forall i :: 0 <= i < j ==> Passes(s, tmax, i).count < k
      invariant k < 1 ==> j == 0
      decreases if j == 0 then 1 else 0, if lastMax > 0 then lastMax else 0, k - lastCount
    {
      PassesStep(s, tmax, j);
      Progress(s, tmax, k, j);
      var curMax, curCount := Pass(v, start, lastMax);
      lastMax := curMax;
      lastCount := lastCount + curCount;
      start := 0;
      j := j + 1;
    }
    r := lastMax;
    if k >= 1 {
      PassesSound(s, tmax, j);
      AtLeastAll(s, lastMax);
      if forall i :: 0 <= i < |s| ==> s[i] < tmax { PassesKth(s, tmax, k, j); }
    }
  }

  /** At zero, a count below k means that there are zeros to count. */
  lemma Progress(v: seq<int>, tmax: int, k: int, j: nat)
    requires tmax >= 0 && forall i :: 0 <= i < |v| ==> 0 <= v[i] <= tmax
    requires k <= |v| - AtLeast(v, tmax) || 0 in v
    requires Passes(v, tmax, j).count < k
    ensures j > 0 && Passes(v, tmax, j).last <= 0 ==> Equal(v, 0) > 0
  {
    if 0 in v {
      EqualSome(v, 0);
    } else {
      PassesCount(v, tmax, j);
      AtLeastAll(v, Passes(v, tmax, j).last);
    }
  }

  // ---------------------------------------------------------------- replicas' views

  /** The replicas whose entry is x or more */
  ghost function Reaching(v: seq<int>, x: int): (s: set<nat>)
    ensures forall i: nat :: i in s <==> i < |v| && v[i] >= x
    ensures |s| == AtLeast(v, x)
  {
    if v == [] then {} else
      var n := |v| - 1;
      var s := Reaching(v[..n], x);
      if v[n] >= x then s + {n} else s
  }

  /**
   max_view and max_maj_view: with at most f faulty replicas, the (f+1)-th largest view is reached
   by a correct replica, the (2f+1)-th largest by f+1 correct replicas.
   */
  lemma CorrectReach(v: seq<int>, f: nat, faulty: set<nat>, k: nat, r: int)
    requires |v| == 3 * f + 1 && |faulty| <= f && IsKthLargest(v, k, r)
    ensures |Reaching(v, r) - faulty| >= k - f
    ensures k == f + 1 ==> exists i: nat :: i < |v| && i !in faulty && v[i] >= r
    ensures k == 2 * f + 1 ==> |Reaching(v, r) - faulty| >= f + 1
  {
    var s := Reaching(v, r);
    assert s == (s - faulty) + (s * faulty);
    SubsetSize(s * faulty, faulty);
    if k == f + 1 {
      assert s - faulty != {};
      var i :| i in s - faulty;
    }
  }

  /** No larger value is reached for sure: any larger one might be reached by faulty replicas alone. */
  lemma NoneLarger(v: seq<int>, f: nat, r: int, x: int)
    requires |v| == 3 * f + 1 && IsKthLargest(v, f + 1, r) && x > r
    ensures |Reaching(v, x)| <= f
  {
    KthIsMaximal(v, f + 1, r, x);
  }
}
