/**
 qhash: a map from keys to values over the chained hash table. Two keys are the same when eq
 says so, and eq may hold for different keys; the hash must not tell such keys apart.
 */
module QHash {
  import opened HashTable
  import opened Sequences

  /** eq says which keys are the same; cls names the class of a key, and hash respects it. */
  ghost predicate Consistent<K(!new)>(eq: (K, K) -> bool, hash: K -> nat, cls: K -> int) {
    && (forall a, b :: eq(a, b) <==> cls(a) == cls(b))
    && (forall a, b :: cls(a) == cls(b) ==> hash(a) == hash(b))
  }

  /** slots gives each class that has a slot that one slot; all are the slots there are. */
  ghost predicate Keyed<K, V>(slots: map<int, Slot<K, V>>, all: set<Slot<K, V>>, cls: K -> int) {
    && (forall c :: c in slots ==> slots[c] in all && cls(slots[c].key) == c)
    && (forall e :: e in all ==> cls(e.key) in slots && slots[cls(e.key)] == e)
  }

  ghost predicate Hashed<K, V>(all: set<Slot<K, V>>, hash: K -> nat)
    reads all`val
  {
    forall e :: e in all ==> e.val == hash(e.key)
  }

  ghost function ValuesOf<K, V>(slots: map<int, Slot<K, V>>): map<int, V>
    reads slots.Values`value
  {
    map c | c in slots :: slots[c].value
  }

  lemma ValuesWithout<K, V>(slots: map<int, Slot<K, V>>, c: int)
    ensures ValuesOf(slots - {c}) == ValuesOf(slots) - {c}
  {
  }

  lemma ValuesWith<K, V>(slots: map<int, Slot<K, V>>, c: int, e: Slot<K, V>)
    ensures ValuesOf(slots[c := e]) == ValuesOf(slots)[c := e.value]
  {
  }

  lemma KeyedWith<K, V>(slots: map<int, Slot<K, V>>, all: set<Slot<K, V>>, cls: K -> int, e: Slot<K, V>)
    requires Keyed(slots, all, cls) && cls(e.key) !in slots
    ensures Keyed(slots[cls(e.key) := e], all + {e}, cls) && |slots[cls(e.key) := e]| == |slots| + 1
  {
  }

  lemma KeyedIn<K, V>(slots: map<int, Slot<K, V>>, all: set<Slot<K, V>>, cls: K -> int)
    requires Keyed(slots, all, cls)
    ensures forall c :: c in slots ==> slots[c] in all && cls(slots[c].key) == c
  {
  }

  lemma KeyedInjective<K, V>(slots: map<int, Slot<K, V>>, all: set<Slot<K, V>>, cls: K -> int)
    requires Keyed(slots, all, cls)
    ensures forall c, d :: c in slots && d in slots && c != d ==> slots[c] != slots[d]
  {
  }

  lemma KeyedWithout<K, V>(slots: map<int, Slot<K, V>>, all: set<Slot<K, V>>, cls: K -> int, e: Slot<K, V>)
    requires Keyed(slots, all, cls) && e in all
    ensures Keyed(slots - {cls(e.key)}, all - {e}, cls) && |slots - {cls(e.key)}| == |slots| - 1
  {
  }

  /** There are as many classes with a slot as slots. */
  lemma {:induction false} KeyedSize<K, V>(slots: map<int, Slot<K, V>>, all: set<Slot<K, V>>, cls: K -> int)
    requires Keyed(slots, all, cls)
    ensures |slots| == |all|
    decreases |all|
  {
    if all == {} {
      forall c ensures c !in slots {}
      assert slots == map[];
    } else {
      var e :| e in all;
      KeyedWithout(slots, all, cls, e);
      KeyedSize(slots - {cls(e.key)}, all - {e}, cls);
    }
  }

  lemma {:induction false} ElementsSize<T>(s: seq<T>)
    requires forall i, j :: 0 <= i < j < |s| ==> s[i] != s[j]
    ensures |Elements(s)| == |s|
  {
    if s == [] {
      NoElements(s);
    } else {
      var k := |s| - 1;
      NextElement(s, k);
      assert s[..k + 1] == s;
      ElementsSize(s[..k]);
    }
  }

  /** The iteration order holds each slot of the table once. */
  lemma FlatOnce<K, V>(tab: array<Slot?<K, V>>, chains: seq<seq<Slot<K, V>>>)
    requires Table(tab, chains)
    ensures NoDup(Flat(chains)) && Elements(Flat(chains)) == Slots(chains) && |Flat(chains)| == |Slots(chains)|
  {
    TableApart(tab, chains);
    assert forall b :: 0 <= b < |chains| ==> Chain(tab[b], chains[b], b, |chains|);
    FlatIsSlots(chains);
    ElementsSize(Flat(chains));
  }

  /** i is the first index in s with a slot for key k, or |s|; e is that slot, or null. */
  ghost predicate FirstFor<K, V>(s: seq<Slot<K, V>>, hval: nat, eq: (K, K) -> bool, k: K, i: nat, e: Slot?<K, V>)
    reads s`val
  {
    && i <= |s| && (forall j :: 0 <= j < i ==> s[j].val != hval || !eq(s[j].key, k))
    && (if i < |s| then e == s[i] && s[i].val == hval && eq(s[i].key, k) else e == null)
  }

  /** The loop of getslot: the slots with the hash value, until one has the key. */
  method FindKey<K, V>(tab: array<Slot?<K, V>>, hval: nat, eq: (K, K) -> bool, k: K, ghost chains: seq<seq<Slot<K, V>>>)
      returns (e: Slot?<K, V>, ghost i: nat)
    requires Table(tab, chains)
    ensures FirstFor(chains[Home(hval, |chains|)], hval, eq, k, i, e)
    ensures if e == null then forall x <- chains[Home(hval, |chains|)] :: x.val != hval || !eq(x.key, k)
            else e in chains[Home(hval, |chains|)] && e.val == hval && eq(e.key, k)
  {
    hide Home;
    ghost var b := Home(hval, |chains|);
    ghost var s := chains[b];
    assert Chain(tab[b], s, b, |chains|);
    e, i := LookupVal(tab, hval, chains);
    hide Table, LinkedAt;
    while e != null && !eq(e.key, k)
      invariant i <= |s| && (if i < |s| then e == s[i] && s[i].val == hval else e == null)
      invariant forall j :: 0 <= j < i ==> s[j].val != hval || !eq(s[j].key, k)
      decreases |s| - i
    {
      e, i := NextVal(e, s, i, b);
    }
  }

  /** The first slot for a key is the only one. */
  lemma FoundIsSlot<K(!new), V>(tab: array<Slot?<K, V>>, chains: seq<seq<Slot<K, V>>>, slots: map<int, Slot<K, V>>,
                                eq: (K, K) -> bool, hash: K -> nat, cls: K -> int, k: K, i: nat, e: Slot?<K, V>)
    requires Consistent(eq, hash, cls) && Table(tab, chains) && Keyed(slots, Slots(chains), cls) && Hashed(Slots(chains), hash)
    requires FirstFor(chains[Home(hash(k), |chains|)], hash(k), eq, k, i, e)
    ensures e == if cls(k) in slots then slots[cls(k)] else null
  {
    hide Home;
    if e != null {
      InHome(tab, chains, e);
      assert eq(e.key, k);
    } else if cls(k) in slots {
      var x := slots[cls(k)];
      assert eq(x.key, k) && hash(x.key) == hash(k);
      InHome(tab, chains, x);
    }
  }

  /** for (n = first (); n; n = next (n)) */
  method Walk<K, V>(tab: array<Slot?<K, V>>, entries: nat, ghost chains: seq<seq<Slot<K, V>>>) returns (visited: seq<Slot<K, V>>)
    requires Table(tab, chains) && (entries == 0 ==> Flat(chains) == [])
    ensures visited == Flat(chains)
  {
    hide Table, Slots, Flat;
    SlotsExist(chains);
    visited := [];
    var n := First(tab, entries, chains);
    while n != null
      invariant Table(tab, chains) && visited <= Flat(chains)
      invariant n == if |visited| < |Flat(chains)| then Flat(chains)[|visited|] else null
      decreases |Flat(chains)| - |visited|
    {
      var nn := Next(tab, n, chains, |visited|);
      visited := visited + [n];
      n := nn;
    }
  }

  class QHash<K(!new), V> {
    const eq: (K, K) -> bool
    const hash: K -> nat
    ghost const cls: K -> int
    var tab: array<Slot?<K, V>>
    var entries: nat
    ghost var chains: seq<seq<Slot<K, V>>>
    ghost var slots: map<int, Slot<K, V>>

    ghost predicate Ok()
      reads this, tab, Slots(chains)
    {
      && Consistent(eq, hash, cls)
      && Table(tab, chains)
      && Keyed(slots, Slots(chains), cls) && Hashed(Slots(chains), hash)
      && entries == |slots| && entries < tab.Length
    }

    /** The map this table stands for, from classes of keys to values. */
    ghost function Contents(): map<int, V>
      reads this, slots.Values
    {
      ValuesOf(slots)
    }

    ghost function Footprint(): set<object>
      reads this
    {
      {this, tab} + Slots(chains)
    }

    constructor (eq: (K, K) -> bool, hash: K -> nat, ghost cls: K -> int)
      requires Consistent(eq, hash, cls)
      ensures Ok() && Contents() == map[] && fresh(Footprint()) && tab.Length == 1
      ensures this.eq == eq && this.hash == hash && this.cls == cls
    {
      this.eq, this.hash, this.cls := eq, hash, cls;
      var t, ch := NewTable<K, V>(1);
      tab, chains := t, ch;
      entries := 0;
      slots := map[];
    }

    /** getslot */
    method GetSlot(k: K) returns (e: Slot?<K, V>)
      requires Ok()
      ensures e == if cls(k) in slots then slots[cls(k)] else null
      ensures e != null ==> e in Slots(chains)
    {
      ghost var i: nat;
      e, i := FindKey(tab, hash(k), eq, k, chains);
      FoundIsSlot(tab, chains, slots, eq, hash, cls, k, i, e);
    }

    /** _grow: more buckets for the same slots */
    method Grow()
      requires Ok()
      modifies this`tab, this`chains, Slots(chains)`next, Slots(chains)`pprev
      ensures Ok() && Slots(chains) == old(Slots(chains)) && fresh(tab) && tab.Length == 2 * old(tab.Length) + 1
    {
      hide Table, Slots, Consistent, Keyed;
      SlotsExist(chains);
      tab, chains := Rehash(tab, 2 * tab.Length + 1, chains);
    }

    /** insert_val, for a slot whose key is in no slot of the table */
    method InsertVal(e: Slot<K, V>, hval: nat)
      requires Ok() && e !in Slots(chains) && hval == hash(e.key) && cls(e.key) !in slots
      modifies this, tab, Slots(chains)`next, Slots(chains)`pprev, e`next, e`pprev, e`val
      ensures Ok() && slots == old(slots)[cls(e.key) := e] && Slots(chains) == old(Slots(chains)) + {e}
      ensures if old(entries) + 1 < old(tab.Length) then tab == old(tab) else fresh(tab) && tab.Length == 2 * old(tab.Length) + 1
    {
      hide Table, Slots, Consistent, Keyed, Home;
      SlotsExist(chains);
      if entries + 1 >= tab.Length {
        Grow();
      }
      KeyedWith(slots, Slots(chains), cls, e);
      LinkIn(e, hval);
    }

    method LinkIn(e: Slot<K, V>, hval: nat)
      requires Ok() && e !in Slots(chains) && hval == hash(e.key) && entries + 1 < tab.Length
      requires Keyed(slots[cls(e.key) := e], Slots(chains) + {e}, cls) && |slots[cls(e.key) := e]| == |slots| + 1
      modifies this`entries, this`chains, this`slots, tab, Slots(chains)`pprev, e`next, e`pprev, e`val
      ensures Ok() && slots == old(slots)[cls(e.key) := e] && Slots(chains) == old(Slots(chains)) + {e}
    {
      hide Table, Slots, Consistent, Keyed, Home;
      SlotsExist(chains);
      entries := entries + 1;
      e.val := hval;
      chains := Push(tab, e, chains);
      slots := slots[cls(e.key) := e];
    }

    method SetValue(s: Slot<K, V>, v: V)
      requires Ok() && cls(s.key) in slots && slots[cls(s.key)] == s
      modifies s`value
      ensures Ok() && Contents() == old(Contents())[cls(s.key) := v]
    {
      hide Table, Slots, Consistent, Keyed, Hashed;
      KeyedInjective(slots, Slots(chains), cls);
      s.value := v;
      assert forall c :: c in slots ==> slots[c].value == if c == cls(s.key) then v else old(slots[c].value);
    }

    method Add(k: K, v: V) returns (ghost e: Slot<K, V>)
      requires Ok() && cls(k) !in slots
      modifies Footprint()
      ensures Ok() && Contents() == old(Contents())[cls(k) := v]
      ensures (tab == old(tab) || fresh(tab)) && fresh(e) && Slots(chains) == old(Slots(chains)) + {e}
    {
      hide Table, Slots, Consistent, Keyed, Hashed;
      SlotsExist(chains);
      KeyedIn(slots, Slots(chains), cls);
      var slot := new Slot(k, v);
      e := slot;
      hide ValuesOf;
      InsertVal(slot, hash(k));
      ValuesWith(old(slots), cls(k), e);
    }

    /** insert: replaces the value of a key that is present, and adds a slot for one that is not. */
    method Insert(k: K, v: V)
      requires Ok()
      modifies Footprint()
      ensures Ok() && Contents() == old(Contents())[cls(k) := v]
      ensures (tab == old(tab) || fresh(tab)) && fresh(Slots(chains) - old(Slots(chains)))
    {
      hide Table, Slots, Consistent, Keyed, Hashed;
      SlotsExist(chains);
      KeyedIn(slots, Slots(chains), cls);
      var s := GetSlot(k);
      assert Contents() == old(Contents());
      if s != null {
        assert cls(k) in slots && slots[cls(k)] == s && cls(s.key) == cls(k);
        SetValue(s, v);
      } else {
        ghost var e := Add(k, v);
      }
    }

    /** remove: the key's value, if it had one */
    method Remove(k: K) returns (v: Option<V>)
      requires Ok()
      modifies Footprint()
      ensures Ok() && Contents() == old(Contents()) - {cls(k)} && tab == old(tab) && Slots(chains) <= old(Slots(chains))
      ensures v == if cls(k) in old(Contents()) then Some(old(Contents())[cls(k)]) else None
    {
      hide Table, Slots, Consistent, Keyed, Hashed;
      SlotsExist(chains);
      KeyedIn(slots, Slots(chains), cls);
      var s := GetSlot(k);
      assert Contents() == old(Contents());
      if s != null {
        v := Some(s.value);
        assert cls(k) in slots && slots[cls(k)] == s && cls(s.key) == cls(k);
        DelSlot(s);
      } else {
        v := None;
      }
    }

    /** delslot */
    method DelSlot(e: Slot<K, V>)
      requires Ok() && e in Slots(chains)
      modifies this`entries, this`chains, this`slots, tab, Slots(chains)`next, Slots(chains)`pprev
      ensures Ok() && Contents() == old(Contents()) - {cls(e.key)} && Slots(chains) == old(Slots(chains)) - {e}
    {
      hide Table, Slots, Consistent, Keyed, Hashed;
      SlotsExist(chains);
      KeyedIn(slots, Slots(chains), cls);
      hide ValuesOf;
      RemoveSlot(e);
      ValuesWithout(old(slots), cls(e.key));
    }

    /** ihash_core's remove */
    method RemoveSlot(e: Slot<K, V>)
      requires Ok() && e in Slots(chains)
      modifies this`entries, this`chains, this`slots, tab, Slots(chains)`next, Slots(chains)`pprev
      ensures Ok() && slots == old(slots) - {cls(e.key)} && Slots(chains) == old(Slots(chains)) - {e}
    {
      hide Table, Slots, Consistent, Keyed, Home;
      KeyedWithout(slots, Slots(chains), cls, e);
      entries := entries - 1;
      chains := Unlink(tab, e, chains);
      slots := slots - {cls(e.key)};
    }

    /** operator[] */
    method Lookup(k: K) returns (v: Option<V>)
      requires Ok()
      ensures v == if cls(k) in Contents() then Some(Contents()[cls(k)]) else None
    {
      var s := GetSlot(k);
      v := if s != null then Some(s.value) else None;
    }

    /** The loop over begin () .. end (): every slot once. */
    method Visit() returns (visited: seq<Slot<K, V>>)
      requires Ok()
      ensures NoDup(visited) && Elements(visited) == Slots(chains)
      ensures |visited| == entries
    {
      FlatOnce(tab, chains);
      KeyedSize(slots, Slots(chains), cls);
      visited := Walk(tab, entries, chains);
    }
  }
}
