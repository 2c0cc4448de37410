/**
 Certificate.h as the mutable object it is: a bitmap of senders, a vector of the distinct
 values with a counter each, and a pointer to the correct one. The counters are shown to
 agree with the sets of senders that module Certificates reasons about.
 */
module CertificateStore {
  import opened Certificates
  import opened Sequences

  /** Message_val: a value and the number of messages that carry it. */
  datatype MessageVal<V> = MessageVal(m: V, count: nat)

  /** vals lists every value of the certificate once, with the number of its senders. */
  ghost predicate Counts<V>(cert: Certificate<V>, vals: seq<MessageVal<V>>) {
    && (forall i, j :: 0 <= i < j < |vals| ==> vals[i].m != vals[j].m)
    && (forall i :: 0 <= i < |vals| ==> vals[i].count == |cert.Senders(vals[i].m)|)
    && (forall k :: k in cert.msgs ==> exists i :: 0 <= i < |vals| && vals[i].m == cert.msgs[k])
  }

  lemma CountNew<V>(cert: Certificate<V>, vals: seq<MessageVal<V>>, m: V)
    requires Counts(cert, vals) && forall j :: 0 <= j < |vals| ==> vals[j].m != m
    ensures Counts(cert, vals + [MessageVal(m, 0)])
  {
    assert cert.Senders(m) == {};
    var vals' := vals + [MessageVal(m, 0)];
    forall k | k in cert.msgs
      ensures exists i :: 0 <= i < |vals'| && vals'[i].m == cert.msgs[k]
    {
      var i :| 0 <= i < |vals| && vals[i].m == cert.msgs[k];
      assert vals'[i].m == cert.msgs[k];
    }
  }

  lemma CountOneMore<V>(cert: Certificate<V>, vals: seq<MessageVal<V>>, id: Id, m: V, i: nat)
    requires Counts(cert, vals) && cert.CanAdd(id, m) && i < |vals| && vals[i].m == m
    ensures Counts(cert.Add(id, m), vals[i := MessageVal(m, vals[i].count + 1)])
    ensures vals[i].count + 1 == |cert.Add(id, m).Senders(m)|
  {
    var cert', vals' := cert.Add(id, m), vals[i := MessageVal(m, vals[i].count + 1)];
    forall w
      ensures cert'.Senders(w) == if w == m then cert.Senders(w) + {id} else cert.Senders(w)
    {
      AddSenders(cert, id, m, w);
      assert cert'.Senders(w) == cert.(msgs := cert.msgs[id := m]).Senders(w);
    }
    AddSenders(cert, id, m, m);
    forall k | k in cert'.msgs
      ensures exists j :: 0 <= j < |vals'| && vals'[j].m == cert'.msgs[k]
    {
      if k == id {
        assert vals'[i].m == m;
      } else {
        var j :| 0 <= j < |vals| && vals[j].m == cert.msgs[k];
        assert vals'[j].m == vals[j].m;
      }
    }
  }

  class Store<V(==)> {
    var bmap: set<Id>             // the replicas whose message is in this
    var vals: seq<MessageVal<V>>  // all distinct message values in this
    var c: Option<nat>            // index of the correct value in vals, if known
    var mym: Option<V>            // my message
    const correct: nat
    const complete: nat
    ghost var msgs: map<Id, V>

    ghost function Value(): Certificate<V>
      reads this
    {
      Certificate(msgs, if c.Some? && c.value < |vals| then Some(vals[c.value].m) else None, mym, correct, complete)
    }

    ghost predicate Valid()
      reads this
    {
      && bmap == msgs.Keys && Counts(Value(), vals)
      && (c.Some? ==> c.value < |vals|)
      && Value().Valid()
    }

    constructor (correct: nat, complete: nat)
      requires correct > 0
      ensures Valid() && Value() == Empty(correct, complete)
    {
      this.correct, this.complete := correct, complete;
      bmap, vals, c, mym := {}, [], None, None;
      msgs := map[];
    }

    method CValue() returns (r: Option<V>)
      requires Valid()
      ensures r == Value().c
    {
      r := if c.Some? then Some(vals[c.value].m) else None;
    }

    /** num_correct: the counter of the correct value is the number of its senders. */
    method NumCorrect() returns (n: nat)
      requires Valid()
      ensures n == Value().NumCorrect()
      ensures n == if Value().c.Some? then |set i | i in msgs && msgs[i] == Value().c.value| else 0
    {
      n := if c.Some? then vals[c.value].count else 0;
      if c.Some? {
        assert Value().Senders(vals[c.value].m) == set i | i in msgs && msgs[i] == Value().c.value;
      }
    }

    method IsComplete() returns (r: bool)
      requires Valid()
      ensures r <==> Value().IsComplete()
      ensures r <==> (if Value().c.Some? then |set i | i in msgs && msgs[i] == Value().c.value| else 0) >= complete
    {
      var n := NumCorrect();
      r := n >= complete;
    }

    method IsEmpty() returns (r: bool)
      requires Valid()
      ensures r <==> Value().msgs == map[]
    {
      r := bmap == {};
    }

    /** add: the effects that the header promises; the answer says whether the message was added. */
    method Add(id: Id, m: V, verified: bool) returns (ok: bool)
      requires Valid()
      modifies this
      ensures Valid()
      ensures ok <==> verified && id !in old(msgs) && (old(Value()).c.None? || old(Value()).c.value == m)
      ensures msgs == if ok then old(msgs)[id := m] else old(msgs)
      ensures Value() == if ok then old(Value()).Add(id, m) else old(Value())
    {
      ok := verified && id !in bmap && (c.None? || vals[c.value].m == m);
      if ok {
        Insert(id, m);
      }
    }

    /** add_mine */
    method AddMine(id: Id, m: V) returns (ok: bool)
      requires Valid() && id !in Value().msgs && Value().mine.None?
      modifies this
      ensures Valid()
      ensures ok <==> old(Value()).c.None? || old(Value()).c.value == m
      ensures msgs == (if ok then old(msgs)[id := m] else old(msgs)) && Value().mine == if ok then Some(m) else None
      ensures Value() == old(Value()).AddMine(id, m)
    {
      ok := c.None? || vals[c.value].m == m;
      if ok {
        Insert(id, m);
        mym := Some(m);
        AddMineValid(old(Value()), id, m);
        assert forall w :: Value().Senders(w) == old(Value()).Add(id, m).Senders(w);
      }
    }

    /** The index of m among the known values, or one past them. */
    method Find(m: V) returns (i: nat)
      ensures i <= |vals| && (i < |vals| ==> vals[i].m == m)
      ensures forall j :: 0 <= j < i ==> vals[j].m != m
    {
      i := 0;
      while i < |vals| && vals[i].m != m
        invariant 0 <= i <= |vals|
        invariant forall j :: 0 <= j < i ==> vals[j].m != m
      {
        i := i + 1;
      }
    }

    /** Counts one more message. */
    method Insert(id: Id, m: V)
      requires Valid() && Value().CanAdd(id, m)
      modifies this
      ensures Valid() && Value() == old(Value()).Add(id, m) && mym == old(mym)
    {
      hide Counts;
      ghost var before := Value();
      var i := Find(m);
      var known := vals;
      if i == |known| {
        CountNew(before, known, m);
        known := known + [MessageVal(m, 0)];
      }
      CountOneMore(before, known, id, m, i);
      AddValid(before, id, m);
      vals := known[i := MessageVal(m, known[i].count + 1)];
      bmap := bmap + {id};
      msgs := msgs[id := m];
      if c.None? && vals[i].count >= correct {
        c := Some(i);
      }
      assert Value() == before.Add(id, m);
    }

    /** clear: every value and counter is dropped. */
    method Clear()
      requires Valid()
      modifies this
      ensures Valid() && Value() == Empty(correct, complete)
    {
      vals := [];
      bmap, c, mym := {}, None, None;
      msgs := map[];
    }
  }
}
