/**
 Certificates of libbyz as values: sets of matching messages from different replicas, with
 the effects that Certificate.h and Prepared_cert.h promise. CertificateStore.dfy has the
 mutable class that counts instead.
 */
module Certificates {
  import opened Sequences

  type Id = nat
  type Digest = nat

  /**
   A certificate: the value of each sender's message, the correct value once known, and the
   own message. A value is correct when at least "correct" messages carry it, and the
   certificate is complete when at least "complete" messages carry the correct value.
   */
  datatype Certificate<V(==)> = Certificate(msgs: map<Id, V>, c: Option<V>, mine: Option<V>, correct: nat, complete: nat) {

    ghost function Senders(v: V): set<Id> {
      set i | i in msgs && msgs[i] == v
    }

    ghost function NumCorrect(): nat {
      if c.Some? then |Senders(c.value)| else 0
    }

    ghost predicate IsComplete() {
      NumCorrect() >= complete
    }

    /** The correct value is one that enough messages carry, and no other value has that many. */
    ghost predicate Valid() {
      && correct > 0
      && (c.Some? ==> |Senders(c.value)| >= correct)
      && (forall i :: i in msgs && c != Some(msgs[i]) ==> |Senders(msgs[i])| < correct)
    }

    ghost predicate CanAdd(i: Id, v: V) {
      i !in msgs && (c.Some? ==> c.value == v)
    }

    /** Certificate::add, for a message that verifies. */
    ghost function Add(i: Id, v: V): Certificate<V> {
      if CanAdd(i, v) then
        var added := this.(msgs := msgs[i := v]);
        if c.None? && |added.Senders(v)| >= correct then added.(c := Some(v)) else added
      else this
    }

    /** Certificate::add_mine */
    ghost function AddMine(i: Id, v: V): Certificate<V> {
      if CanAdd(i, v) then Add(i, v).(mine := Some(v)) else this
    }

    /** Certificate::mark_stale: only the own message is left. */
    ghost function MarkStale(i: Id): Certificate<V> {
      if mine.Some? then
        Certificate(map[i := mine.value], if correct <= 1 then Some(mine.value) else None, mine, correct, complete)
      else
        Certificate(map[], None, None, correct, complete)
    }
  }

  ghost function Empty<V>(correct: nat, complete: nat): Certificate<V> {
    Certificate(map[], None, None, correct, complete)
  }

  lemma AddSenders<V>(cert: Certificate<V>, i: Id, v: V, w: V)
    requires cert.CanAdd(i, v)
    ensures cert.(msgs := cert.msgs[i := v]).Senders(w) == if w == v then cert.Senders(w) + {i} else cert.Senders(w)
    ensures i !in cert.Senders(w)
  {
  }

  lemma SendersAdded<V>(cert: Certificate<V>, i: Id, v: V, w: V)
    requires cert.CanAdd(i, v)
    ensures cert.Add(i, v).Senders(w) == if w == v then cert.Senders(w) + {i} else cert.Senders(w)
    ensures |cert.(msgs := cert.msgs[i := v]).Senders(w)| == |cert.Add(i, v).Senders(w)|
  {
    AddSenders(cert, i, v, w);
    assert cert.Add(i, v).Senders(w) == cert.(msgs := cert.msgs[i := v]).Senders(w);
  }

  /** The replicas whose message carries v, spelled out */
  ghost predicate Carries<V>(cert: Certificate<V>, v: V, senders: set<Id>) {
    forall i :: i in senders <==> i in cert.msgs && cert.msgs[i] == v
  }

  /**
   What add does, by the header's three conditions: a message from a replica that has none yet and
   that matches the correct value, if that is known, joins the senders of its value and no others;
   any other message changes nothing.
   */
  lemma AddExactly<V>(cert: Certificate<V>, i: Id, v: V)
    ensures var after := cert.Add(i, v);
            if i !in cert.msgs && (cert.c.None? || cert.c == Some(v))
            then after.msgs == cert.msgs[i := v] && after.Senders(v) == cert.Senders(v) + {i} && |after.Senders(v)| == |cert.Senders(v)| + 1
            else after == cert
    ensures cert.Add(i, v).mine == cert.mine && cert.Add(i, v).correct == cert.correct && cert.Add(i, v).complete == cert.complete
  {
    if i !in cert.msgs && (cert.c.None? || cert.c == Some(v)) {
      var after := cert.Add(i, v);
      assert after.msgs == cert.msgs[i := v];
      MoreSenders(cert, after, i, v);
    }
  }

  lemma MoreSenders<V>(cert: Certificate<V>, after: Certificate<V>, i: Id, v: V)
    requires i !in cert.msgs && after.msgs == cert.msgs[i := v]
    ensures after.Senders(v) == cert.Senders(v) + {i} && |after.Senders(v)| == |cert.Senders(v)| + 1
  {
    assert after.Senders(v) == cert.Senders(v) + {i};
  }

  lemma SendersCarry<V>(cert: Certificate<V>, v: V)
    ensures Carries(cert, v, cert.Senders(v))
  {
  }

  /** Once the correct value is known, no sender of another value is ever added. */
  lemma OthersRefused<V>(cert: Certificate<V>, i: Id, v: V, w: V)
    requires cert.c.Some? && w != cert.c.value
    ensures cert.Add(i, v).Senders(w) == cert.Senders(w) && cert.AddMine(i, v).Senders(w) == cert.Senders(w)
  {
  }

  /** Complete exactly if at least that many different replicas sent the correct value. */
  lemma CompleteCounts<V>(cert: Certificate<V>, senders: set<Id>)
    requires cert.c.Some? ==> Carries(cert, cert.c.value, senders)
    ensures cert.IsComplete() <==> if cert.c.Some? then |senders| >= cert.complete else cert.complete == 0
  {
    if cert.c.Some? { assert senders == cert.Senders(cert.c.value); }
  }

  /** For a value, complete means that enough different replicas sent it, whatever else has come. */
  lemma CompleteFor<V>(cert: Certificate<V>, v: V, senders: set<Id>)
    requires cert.Valid() && cert.complete >= cert.correct && Carries(cert, v, senders)
    ensures cert.c == Some(v) && cert.IsComplete() <==> |senders| >= cert.complete
  {
    assert senders == cert.Senders(v);
    if |senders| >= cert.complete {
      var k :| k in senders;
      assert cert.msgs[k] == v;
    }
  }

  /** add keeps the certificate valid: the correct value never changes once known. */
  lemma AddValid<V>(cert: Certificate<V>, i: Id, v: V)
    requires cert.Valid()
    ensures cert.Add(i, v).Valid()
    ensures cert.c.Some? ==> cert.Add(i, v).c == cert.c
  {
    if cert.CanAdd(i, v) {
      var after := cert.Add(i, v);
      SendersAdded(cert, i, v, v);
      if after.c.Some? { SendersAdded(cert, i, v, after.c.value); }
      hide Certificate.Senders;
      forall k | k in after.msgs && after.c != Some(after.msgs[k])
        ensures |after.Senders(after.msgs[k])| < after.correct
      {
        SendersAdded(cert, i, v, after.msgs[k]);
      }
    }
  }

  lemma AddMineValid<V>(cert: Certificate<V>, i: Id, v: V)
    requires cert.Valid() && cert.CanAdd(i, v)
    ensures cert.AddMine(i, v).Valid() && cert.AddMine(i, v).mine == Some(v)
  {
    AddValid(cert, i, v);
    assert forall w :: cert.AddMine(i, v).Senders(w) == cert.Add(i, v).Senders(w);
  }

  lemma MarkStaleValid<V>(cert: Certificate<V>, i: Id)
    requires cert.Valid()
    ensures cert.MarkStale(i).Valid() && cert.MarkStale(i).mine == cert.mine
    ensures cert.MarkStale(i).msgs == if cert.mine.Some? then map[i := cert.mine.value] else map[]
  {
    if cert.mine.Some? {
      assert cert.MarkStale(i).Senders(cert.mine.value) == {i};
    }
  }
}
