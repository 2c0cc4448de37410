/**
 The chained hash table under ihash_core: buckets of slots, each slot linked forward by next
 and back by pprev, the place that holds the pointer to it.
 */
module HashTable {
  import opened Sequences

  /** Where a pointer to a slot is held: in the table or in another slot's next. */
  datatype Place<!K, !V> = Bucket(b: nat) | After(e: Slot<K, V>)

  /** qhash_slot, with its ihash_entry */
  class Slot<K, V> {
    const key: K
    var value: V
    var next: Slot?<K, V>
    var pprev: Place<K, V>
    var val: nat

    constructor (key: K, value: V)
      ensures this.key == key && this.value == value
    {
      this.key, this.value := key, value;
      next, pprev, val := null, Bucket(0), 0;
    }
  }

  function Home(val: nat, n: nat): (b: nat)
    requires n > 0
    ensures b < n
  {
    val % n
  }

  // ---------------------------------------------------------------- one bucket

  ghost predicate LinkedAt<K, V>(s: seq<Slot<K, V>>, i: nat, b: nat)
    requires i < |s|
    reads s`next, s`pprev
  {
    && s[i].next == (if i + 1 < |s| then s[i + 1] else null)
    && s[i].pprev == (if i == 0 then Bucket(b) else After(s[i - 1]))
  }

  /** Bucket b of n holds the chain s, which starts at first. */
  ghost predicate Chain<K, V>(first: Slot?<K, V>, s: seq<Slot<K, V>>, b: nat, n: nat)
    requires n > 0
    reads s`next, s`pprev, s`val
  {
    && first == (if s == [] then null else s[0])
    && (forall i :: 0 <= i < |s| ==> LinkedAt(s, i, b))
    && NoDup(s)
    && (forall i :: 0 <= i < |s| ==> Home(s[i].val, n) == b)
  }

  /** A slot put before the chain */
  method PushChain<K, V>(e: Slot<K, V>, first: Slot?<K, V>, b: nat, ghost s: seq<Slot<K, V>>, ghost n: nat)
    requires n > 0 && Chain(first, s, b, n) && e !in s && Home(e.val, n) == b
    modifies e`next, e`pprev, s`pprev
    ensures Chain(e, [e] + s, b, n)
  {
    if first != null {
      first.pprev := After(e);
    }
    e.next := first;
    e.pprev := Bucket(b);
    ghost var t := [e] + s;
    forall i | 0 <= i < |t| ensures LinkedAt(t, i, b) {
      if i > 0 { assert t[i] == s[i - 1] && old(LinkedAt(s, i - 1, b)); }
    }
  }

  /** remove: takes the i-th slot out of its chain, wherever the pointer to it is held. */
  method UnlinkSlot<K, V>(e: Slot<K, V>, tab: array<Slot?<K, V>>, ghost s: seq<Slot<K, V>>, ghost i: nat, ghost b: nat)
    requires b < tab.Length && i < |s| && s[i] == e && Chain(tab[b], s, b, tab.Length)
    modifies tab, s`next, s`pprev
    ensures Chain(tab[b], Without(s, i), b, tab.Length)
    ensures forall c :: 0 <= c < tab.Length && c != b ==> tab[c] == old(tab[c])
  {
    assert LinkedAt(s, i, b);
    assert i > 0 ==> LinkedAt(s, i - 1, b);
    assert i + 1 < |s| ==> LinkedAt(s, i + 1, b);
    if e.next != null {
      e.next.pprev := e.pprev;
    }
    match e.pprev {
      case Bucket(c) => tab[c] := e.next;
      case After(p) => p.next := e.next;
    }
    ghost var t := Without(s, i);
    forall j | 0 <= j < |t| ensures LinkedAt(t, j, b) {
      var k := if j < i then j else j + 1;
      assert t[j] == s[k] && old(LinkedAt(s, k, b));
      assert j > 0 ==> t[j - 1] == s[if j - 1 < i then j - 1 else j];
    }
  }

  // ---------------------------------------------------------------- the table

  ghost function Slots<K, V>(chains: seq<seq<Slot<K, V>>>): set<Slot<K, V>> {
    set b, i | 0 <= b < |chains| && 0 <= i < |chains[b]| :: chains[b][i]
  }

  lemma SlotsExist<K, V>(chains: seq<seq<Slot<K, V>>>)
    ensures forall x <- Slots(chains) :: allocated(x)
  {
  }

  ghost predicate Table<K, V>(tab: array<Slot?<K, V>>, chains: seq<seq<Slot<K, V>>>)
    reads tab, Slots(chains)`next, Slots(chains)`pprev, Slots(chains)`val
  {
    && tab.Length == |chains| && |chains| > 0
    && (forall b :: 0 <= b < |chains| ==> Chain(tab[b], chains[b], b, |chains|))
  }

  /** A slot is in the chain its hash value names, and in no other. */
  lemma InHome<K, V>(tab: array<Slot?<K, V>>, chains: seq<seq<Slot<K, V>>>, e: Slot<K, V>)
    requires Table(tab, chains)
    ensures e in Slots(chains) <==> e in chains[Home(e.val, |chains|)]
    ensures forall b :: 0 <= b < |chains| && b != Home(e.val, |chains|) ==> e !in chains[b]
    ensures Home(e.val, |chains|) == e.val % |chains|
  {
    forall b | 0 <= b < |chains| && e in chains[b] ensures b == Home(e.val, |chains|) {
      assert Chain(tab[b], chains[b], b, |chains|);
    }
  }

  lemma SlotsWith<K, V>(chains: seq<seq<Slot<K, V>>>, b: nat, e: Slot<K, V>)
    requires b < |chains|
    ensures Slots(chains[b := [e] + chains[b]]) == Slots(chains) + {e}
  {
    var chains' := chains[b := [e] + chains[b]];
    forall x | x in Slots(chains) + {e} ensures x in Slots(chains') {
      if x == e {
        assert chains'[b][0] == e;
      } else {
        var c, i :| 0 <= c < |chains| && 0 <= i < |chains[c]| && chains[c][i] == x;
        assert chains'[c][if c == b then i + 1 else i] == x;
      }
    }
  }

  lemma SlotsWithout<K, V>(chains: seq<seq<Slot<K, V>>>, b: nat, i: nat)
    requires b < |chains| && i < |chains[b]| && NoDup(chains[b])
    requires forall c :: 0 <= c < |chains| && c != b ==> chains[b][i] !in chains[c]
    ensures Slots(chains[b := Without(chains[b], i)]) == Slots(chains) - {chains[b][i]}
  {
    var chains', e := chains[b := Without(chains[b], i)], chains[b][i];
    forall x | x in Slots(chains) && x != e ensures x in Slots(chains') {
      var c, k :| 0 <= c < |chains| && 0 <= k < |chains[c]| && chains[c][k] == x;
      assert chains'[c][if c == b && k > i then k - 1 else k] == x;
    }
    forall x | x in Slots(chains') ensures x in Slots(chains) && x != e {
      var c, k :| 0 <= c < |chains'| && 0 <= k < |chains'[c]| && chains'[c][k] == x;
      assert x == chains[c][if c == b && k >= i then k + 1 else k];
    }
  }

  method Push<K, V>(tab: array<Slot?<K, V>>, e: Slot<K, V>, ghost chains: seq<seq<Slot<K, V>>>) returns (ghost chains': seq<seq<Slot<K, V>>>)
    requires Table(tab, chains) && e !in Slots(chains)
    modifies tab, e`next, e`pprev, Slots(chains)`pprev
    ensures Table(tab, chains') && Slots(chains') == Slots(chains) + {e}
    ensures chains' == var b := Home(e.val, |chains|); chains[b := [e] + chains[b]]
  {
    hide Home;
    var b := Home(e.val, tab.Length);
    ghost var n := |chains|;
    forall c | 0 <= c < n && c != b ensures forall x <- chains[c] :: x !in chains[b] && x != e {
      forall x <- chains[c] ensures x !in chains[b] && x != e { InHome(tab, chains, x); }
    }
    PushChain(e, tab[b], b, chains[b], n);
    tab[b] := e;
    chains' := chains[b := [e] + chains[b]];
    SlotsWith(chains, b, e);
    forall c | 0 <= c < n ensures Chain(tab[c], chains'[c], c, n) {
      if c != b { assert old(Chain(tab[c], chains[c], c, n)); }
    }
  }

  method Unlink<K, V>(tab: array<Slot?<K, V>>, e: Slot<K, V>, ghost chains: seq<seq<Slot<K, V>>>) returns (ghost chains': seq<seq<Slot<K, V>>>)
    requires Table(tab, chains) && e in Slots(chains)
    modifies tab, Slots(chains)`next, Slots(chains)`pprev
    ensures Table(tab, chains') && Slots(chains') == Slots(chains) - {e}
    ensures |chains'| == |chains|
  {
    hide Home;
    ghost var b, n := Home(e.val, |chains|), |chains|;
    InHome(tab, chains, e);
    ghost var i :| 0 <= i < |chains[b]| && chains[b][i] == e;
    forall c | 0 <= c < n && c != b ensures forall x <- chains[c] :: x !in chains[b] {
      forall x <- chains[c] ensures x !in chains[b] { InHome(tab, chains, x); }
    }
    UnlinkSlot(e, tab, chains[b], i, b);
    chains' := chains[b := Without(chains[b], i)];
    SlotsWithout(chains, b, i);
    forall c | 0 <= c < n ensures Chain(tab[c], chains'[c], c, n) {
      if c != b { assert old(Chain(tab[c], chains[c], c, n)); }
    }
  }

  // ---------------------------------------------------------------- growing

  ghost function Elements<T>(s: seq<T>): set<T> {
    set x | x in s
  }

  /** The links of s from index k on. */
  ghost predicate Onward<K, V>(s: seq<Slot<K, V>>, k: nat)
    reads s`next
  {
    forall j {:trigger s[j].next} :: k <= j < |s| ==> s[j].next == if j + 1 < |s| then s[j + 1] else null
  }

  lemma NoElements<T>(s: seq<T>)
    requires s == []
    ensures Elements(s) == {}
  {
  }

  lemma NextElement<T>(s: seq<T>, k: nat)
    requires k < |s| && forall i, j :: 0 <= i < j < |s| ==> s[i] != s[j]
    ensures Elements(s[..k + 1]) == Elements(s[..k]) + {s[k]}
    ensures s[k] !in Elements(s[..k]) && forall x <- Elements(s[..k]) :: x in s
  {
  }

  /** Moves the slots of one chain to another table. */
  method MoveChain<K, V>(first: Slot?<K, V>, ghost s: seq<Slot<K, V>>, tab: array<Slot?<K, V>>, ghost chains: seq<seq<Slot<K, V>>>)
      returns (ghost chains': seq<seq<Slot<K, V>>>)
    requires Onward(s, 0) && NoDup(s) && first == (if s == [] then null else s[0])
    requires Table(tab, chains) && (forall x <- s :: x !in Slots(chains))
    modifies tab, s`next, s`pprev, Slots(chains)`pprev
    ensures Table(tab, chains') && Slots(chains') == Slots(chains) + Elements(s)
  {
    hide Table, Slots, Elements;
    var e := first;
    ghost var k := 0;
    chains' := chains;
    NoElements(s[..0]);
    while e != null
      invariant k <= |s| && e == (if k < |s| then s[k] else null)
      invariant Onward(s, k) && Table(tab, chains') && Slots(chains') == Slots(chains) + Elements(s[..k])
      decreases |s| - k
    {
      var next := e.next;
      NextElement(s, k);
      chains' := Push(tab, e, chains');
      k := k + 1;
      e := next;
    }
    assert s[..k] == s;
  }

  lemma SlotsPrefix<K, V>(chains: seq<seq<Slot<K, V>>>, b: nat)
    requires b < |chains|
    ensures Slots(chains[..b + 1]) == Slots(chains[..b]) + Elements(chains[b])
  {
  }

  lemma NoSlots<K, V>(chains: seq<seq<Slot<K, V>>>)
    requires forall b :: 0 <= b < |chains| ==> chains[b] == []
    ensures Slots(chains) == {}
  {
  }

  /** A new table without slots */
  method NewTable<K, V>(m: nat) returns (tab: array<Slot?<K, V>>, ghost chains: seq<seq<Slot<K, V>>>)
    requires m > 0
    ensures fresh(tab) && tab.Length == m && Table(tab, chains) && Slots(chains) == {}
  {
    tab := new Slot?<K, V>[m](_ => null);
    chains := seq(m, _ => []);
    NoSlots(chains);
  }

  /** The chains from index b on are as they were. */
  ghost predicate Unmoved<K, V>(tab: array<Slot?<K, V>>, chains: seq<seq<Slot<K, V>>>, b: nat)
    requires tab.Length == |chains| > 0
    reads tab, Slots(chains)
  {
    forall c :: b <= c < |chains| ==> Chain(tab[c], chains[c], c, |chains|)
  }

  /** Different chains share no slot. */
  ghost predicate Apart<K, V>(chains: seq<seq<Slot<K, V>>>) {
    forall c, d, i, j :: 0 <= c < d < |chains| && 0 <= i < |chains[c]| && 0 <= j < |chains[d]| ==> chains[c][i] != chains[d][j]
  }

  lemma TableApart<K, V>(tab: array<Slot?<K, V>>, chains: seq<seq<Slot<K, V>>>)
    requires Table(tab, chains)
    ensures Apart(chains)
  {
  }

  /** A slot of chain d is in no earlier chain. */
  lemma NotEarlier<K, V>(chains: seq<seq<Slot<K, V>>>, b: nat, d: nat, x: Slot<K, V>)
    requires Apart(chains) && b <= d < |chains| && x in chains[d]
    ensures x !in Slots(chains[..b]) && (b < d ==> x !in chains[b])
  {
  }

  lemma UnmovedNext<K, V>(tab: array<Slot?<K, V>>, chains: seq<seq<Slot<K, V>>>, b: nat)
    requires b < |chains| == tab.Length && Unmoved(tab, chains, b)
    ensures var s := chains[b]; Onward(s, 0) && NoDup(s) && tab[b] == (if s == [] then null else s[0])
  {
    var s := chains[b];
    assert Chain(tab[b], s, b, |chains|);
    assert NoDup(s);
    assert tab[b] == if s == [] then null else s[0];
    forall j {:trigger s[j].next} | 0 <= j < |s| ensures s[j].next == if j + 1 < |s| then s[j + 1] else null { assert LinkedAt(s, j, b); }
    assert Onward(s, 0);
  }

  /** _ihash_grow: every slot moves to a table of m buckets. */
  method Rehash<K, V>(tab: array<Slot?<K, V>>, m: nat, ghost chains: seq<seq<Slot<K, V>>>)
      returns (tab': array<Slot?<K, V>>, ghost chains': seq<seq<Slot<K, V>>>)
    requires Table(tab, chains) && m > 0
    modifies Slots(chains)`next, Slots(chains)`pprev
    ensures fresh(tab') && tab'.Length == m && Table(tab', chains') && Slots(chains') == Slots(chains)
  {
    TableApart(tab, chains);
    assert Unmoved(tab, chains, 0);
    tab', chains' := NewTable<K, V>(m);
    NoSlots(chains[..0]);
    assert forall b :: 0 <= b < |chains| ==> forall x <- chains[b] :: x in Slots(chains);
    var b := 0;
    hide Table, Slots, Elements, NoDup, Onward, Apart;
    while b < tab.Length
      invariant b <= tab.Length == |chains|
      invariant Unmoved(tab, chains, b) && Table(tab', chains') && Slots(chains') == Slots(chains[..b])
      invariant Slots(chains[..b]) <= Slots(chains)
    {
      UnmovedNext(tab, chains, b);
      SlotsPrefix(chains, b);
      chains' := MoveRest(tab, tab', chains, chains', b);
      b := b + 1;
    }
    assert chains[..b] == chains;
  }

  /** Moves chain b, and leaves those after it alone. */
  method MoveRest<K, V>(tab: array<Slot?<K, V>>, tab': array<Slot?<K, V>>, ghost chains: seq<seq<Slot<K, V>>>, ghost moved: seq<seq<Slot<K, V>>>, b: nat)
      returns (ghost moved': seq<seq<Slot<K, V>>>)
    requires tab != tab' && b < tab.Length == |chains| && Apart(chains) && Unmoved(tab, chains, b)
    requires Table(tab', moved) && Slots(moved) == Slots(chains[..b])
    modifies tab', Slots(chains)`next, Slots(chains)`pprev
    ensures Unmoved(tab, chains, b + 1) && Table(tab', moved') && Slots(moved') == Slots(chains[..b + 1])
  {
    hide Table, Apart, Elements;
    UnmovedNext(tab, chains, b);
    SlotsPrefix(chains, b);
    forall d | b <= d < |chains| ensures forall x <- chains[d] :: x !in Slots(chains[..b]) && (b < d ==> x !in chains[b]) {
      forall x <- chains[d] ensures x !in Slots(chains[..b]) && (b < d ==> x !in chains[b]) { NotEarlier(chains, b, d, x); }
    }
    moved' := MoveChain(tab[b], chains[b], tab', moved);
    forall c | b + 1 <= c < |chains| ensures Chain(tab[c], chains[c], c, |chains|) {
      assert old(Chain(tab[c], chains[c], c, |chains|));
    }
  }

  // ---------------------------------------------------------------- looking up

  /** From index k on, i is the first in s with hash value hval, or |s|; e is the slot there, or null. */
  ghost predicate NextWith<K, V>(s: seq<Slot<K, V>>, k: nat, hval: nat, i: nat, e: Slot?<K, V>)
    reads s`val
  {
    && k <= i <= |s| && (forall j :: k <= j < i ==> s[j].val != hval)
    && (if i < |s| then e == s[i] && s[i].val == hval else e == null)
  }

  method LookupVal<K, V>(tab: array<Slot?<K, V>>, hval: nat, ghost chains: seq<seq<Slot<K, V>>>) returns (e: Slot?<K, V>, ghost i: nat)
    requires Table(tab, chains)
    ensures NextWith(chains[Home(hval, |chains|)], 0, hval, i, e)
    ensures if e == null then forall x <- chains[Home(hval, |chains|)] :: x.val != hval
            else e in chains[Home(hval, |chains|)] && e.val == hval
  {
    hide Home;
    e := tab[Home(hval, tab.Length)];
    ghost var s := chains[Home(hval, |chains|)];
    i := 0;
    while e != null && e.val != hval
      invariant i <= |s| && (forall j :: 0 <= j < i ==> s[j].val != hval)
      invariant e == if i < |s| then s[i] else null
      decreases |s| - i
    {
      assert LinkedAt(s, i, Home(hval, |chains|));
      e := e.next;
      i := i + 1;
    }
  }

  method NextVal<K, V>(elm: Slot<K, V>, ghost s: seq<Slot<K, V>>, ghost k: nat, ghost b: nat) returns (e: Slot?<K, V>, ghost i: nat)
    requires k < |s| && s[k] == elm && forall j :: 0 <= j < |s| ==> LinkedAt(s, j, b)
    ensures NextWith(s, k + 1, elm.val, i, e)
    ensures if e == null then forall x <- s[k + 1..] :: x.val != elm.val else e in s[k + 1..] && e.val == elm.val
  {
    var hval := elm.val;
    assert LinkedAt(s, k, b);
    e := elm.next;
    i := k + 1;
    while e != null && e.val != hval
      invariant k < i <= |s| && (forall j :: k < j < i ==> s[j].val != hval)
      invariant e == if i < |s| then s[i] else null
      decreases |s| - i
    {
      assert LinkedAt(s, i, b);
      e := e.next;
      i := i + 1;
    }
  }

  // ---------------------------------------------------------------- iterating

  /** The slots in the order of first and next. */
  ghost function Flat<K, V>(chains: seq<seq<Slot<K, V>>>): seq<Slot<K, V>> {
    if chains == [] then [] else Flat(chains[..|chains| - 1]) + chains[|chains| - 1]
  }

  lemma FlatPrefix<K, V>(chains: seq<seq<Slot<K, V>>>, b: nat)
    requires b < |chains|
    ensures Flat(chains[..b + 1]) == Flat(chains[..b]) + chains[b]
  {
    assert chains[..b + 1][..b] == chains[..b];
  }

  lemma {:induction false} FlatGrows<K, V>(chains: seq<seq<Slot<K, V>>>, b: nat)
    requires b <= |chains|
    ensures Flat(chains[..b]) <= Flat(chains)
    decreases |chains| - b
  {
    if b < |chains| {
      FlatPrefix(chains, b);
      FlatGrows(chains, b + 1);
    } else {
      assert chains[..b] == chains;
    }
  }

  /** Where the p-th slot sits */
  lemma {:induction false} FlatWhere<K, V>(chains: seq<seq<Slot<K, V>>>, p: nat) returns (b: nat, i: nat)
    requires p < |Flat(chains)|
    ensures b < |chains| && i < |chains[b]| && chains[b][i] == Flat(chains)[p] && p == |Flat(chains[..b])| + i
  {
    var k := |chains| - 1;
    if p < |Flat(chains[..k])| {
      b, i := FlatWhere(chains[..k], p);
      assert chains[..k][..b] == chains[..b];
    } else {
      b, i := k, p - |Flat(chains[..k])|;
    }
  }

  /** The iteration order holds every slot of the table once. */
  lemma {:induction false} FlatIsSlots<K, V>(chains: seq<seq<Slot<K, V>>>)
    requires Apart(chains) && forall b :: 0 <= b < |chains| ==> NoDup(chains[b])
    ensures NoDup(Flat(chains)) && Elements(Flat(chains)) == Slots(chains)
    decreases |chains|
  {
    if chains != [] {
      var k := |chains| - 1;
      var s := Flat(chains);
      assert chains[..k + 1] == chains;
      SlotsPrefix(chains, k);
      FlatIsSlots(chains[..k]);
      forall i, j | 0 <= i < j < |s| ensures s[i] != s[j] {
        var m := |Flat(chains[..k])|;
        if i < m <= j {
          NotEarlier(chains, k, k, s[j]);
          assert s[i] in Elements(Flat(chains[..k]));
        }
      }
    }
  }

  /** first: the head of the first bucket that is not empty */
  method First<K, V>(tab: array<Slot?<K, V>>, entries: nat, ghost chains: seq<seq<Slot<K, V>>>) returns (e: Slot?<K, V>)
    requires Table(tab, chains) && (entries == 0 ==> Flat(chains) == [])
    ensures e == if Flat(chains) == [] then null else Flat(chains)[0]
  {
    e := null;
    if entries > 0 {
      e := FirstFrom(tab, 0, chains);
    }
  }

  /** The scan that first and next share: the head of the first bucket from b on that is not empty. */
  method FirstFrom<K, V>(tab: array<Slot?<K, V>>, b: nat, ghost chains: seq<seq<Slot<K, V>>>) returns (e: Slot?<K, V>)
    requires Table(tab, chains) && b <= |chains|
    ensures var p := |Flat(chains[..b])|; e == if p < |Flat(chains)| then Flat(chains)[p] else null
  {
    var i := b;
    while i < tab.Length
      invariant b <= i <= tab.Length && Flat(chains[..i]) == Flat(chains[..b])
    {
      FlatPrefix(chains, i);
      assert Chain(tab[i], chains[i], i, |chains|);
      if tab[i] != null {
        FlatGrows(chains, i + 1);
        return tab[i];
      }
      i := i + 1;
    }
    assert chains[..i] == chains;
    e := null;
  }

  /** next: the slot after the p-th in iteration order */
  method Next<K, V>(tab: array<Slot?<K, V>>, n: Slot<K, V>, ghost chains: seq<seq<Slot<K, V>>>, ghost p: nat) returns (e: Slot?<K, V>)
    requires Table(tab, chains) && p < |Flat(chains)| && Flat(chains)[p] == n
    ensures e == if p + 1 < |Flat(chains)| then Flat(chains)[p + 1] else null
  {
    ghost var b, i := FlatWhere(chains, p);
    ghost var s := chains[b];
    InHome(tab, chains, n);
    FlatPrefix(chains, b);
    FlatGrows(chains, b + 1);
    assert Chain(tab[b], s, b, |chains|) && LinkedAt(s, i, b);
    if n.next != null {
      e := n.next;
    } else {
      e := FirstFrom(tab, Home(n.val, tab.Length) + 1, chains);
    }
  }
}
