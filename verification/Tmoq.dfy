/**
 tmoq in memory: intrusive tail queues whose entries point forwards to the next entry and
 backwards to the slot that points at them. The methods are proved to do what module
 Backoff says about queues as sequences.
 */
module Tmoq {
  import opened Backoff
  import opened Runq
  import opened Sequences

  /** A pointer to a pointer to an entry: the head of a queue, or the next field of an entry. */
  datatype Slot = First(qn: nat) | NextOf(e: Entry)

  datatype Head = Head(first: Entry?, plast: Slot)

  /** tmoq_entry */
  class Entry {
    var qno: nat
    var tm: int
    var next: Entry?
    var pprev: Slot

    constructor ()
      ensures qno == U_INT_SIZE - 1
    {
      qno, tm, next, pprev := U_INT_SIZE - 1, 0, null, First(0);
    }
  }

  /** The entry that follows the first i of s. */
  function At(s: seq<Entry>, i: nat): Entry? {
    if i < |s| then s[i] else null
  }

  /** The slot in queue qn that points to entry i of s, or to null after the last one. */
  function SlotOf(qn: nat, s: seq<Entry>, i: nat): Slot
    requires i <= |s|
  {
    if i == 0 then First(qn) else NextOf(s[i - 1])
  }

  /** Queue qn consists of the entries of s: all next and pprev links agree. */
  ghost predicate QueueOk(qn: nat, s: seq<Entry>, h: Head)
    reads s
  {
    && h == Head(At(s, 0), SlotOf(qn, s, |s|)) && NoDup(s)
    && (forall i {:trigger s[i].next} :: 0 <= i < |s| ==> s[i].next == At(s, i + 1))
    && (forall i {:trigger s[i].pprev} :: 0 <= i < |s| ==> s[i].pprev == SlotOf(qn, s, i))
    && (forall i {:trigger s[i].qno} :: 0 <= i < |s| ==> s[i].qno == qn)
  }

  lemma NoDupWithout<T>(s: seq<T>, i: nat)
    requires i < |s| && NoDup(s)
    ensures NoDup(s[..i] + s[i + 1..])
  {
  }

  /** s without entry i, whose neighbours have been linked to each other. */
  lemma Unlinked(qn: nat, s: seq<Entry>, i: nat, h: Head)
    requires i < |s| && NoDup(s)
    requires h.first == (if i == 0 then At(s, 1) else s[0])
    requires h.plast == SlotOf(qn, s, if i == |s| - 1 then i else |s|)
    requires forall j {:trigger s[j].next} :: 0 <= j < |s| && j != i ==> s[j].next == At(s, if j + 1 == i then i + 1 else j + 1)
    requires forall j {:trigger s[j].pprev} :: 0 <= j < |s| && j != i ==> s[j].pprev == SlotOf(qn, s, if j == i + 1 then i else j)
    requires forall j {:trigger s[j].qno} :: 0 <= j < |s| && j != i ==> s[j].qno == qn
    ensures QueueOk(qn, s[..i] + s[i + 1..], h)
  {
    var t := s[..i] + s[i + 1..];
    NoDupWithout(s, i);
    forall j | 0 <= j < |t|
      ensures t[j].next == At(t, j + 1) && t[j].pprev == SlotOf(qn, t, j) && t[j].qno == qn
    {
      var j' := if j < i then j else j + 1;
      assert t[j] == s[j'];
      assert s[j'].next == At(s, if j' + 1 == i then i + 1 else j' + 1);
      assert s[j'].pprev == SlotOf(qn, s, if j' == i + 1 then i else j');
    }
  }

  /** s with p at the end. */
  lemma Appended(qn: nat, s: seq<Entry>, p: Entry, h: Head)
    requires NoDup(s) && p !in s
    requires h == Head(if s == [] then p else s[0], NextOf(p))
    requires p.next == null && p.pprev == SlotOf(qn, s, |s|) && p.qno == qn
    requires forall j {:trigger s[j].next} :: 0 <= j < |s| ==> s[j].next == if j == |s| - 1 then p else s[j + 1]
    requires forall j {:trigger s[j].pprev} :: 0 <= j < |s| ==> s[j].pprev == SlotOf(qn, s, j)
    requires forall j {:trigger s[j].qno} :: 0 <= j < |s| ==> s[j].qno == qn
    ensures QueueOk(qn, s + [p], h)
  {
  }

  /** linked is the set of entries of all queues, and qno tells the queue. */
  ghost predicate Indexed(q: seq<seq<Entry>>, linked: set<Entry>)
    reads linked`qno
  {
    && (forall k, i :: 0 <= k < |q| && 0 <= i < |q[k]| ==> q[k][i] in linked && q[k][i].qno == k)
    && (forall e :: e in linked ==> e.qno < |q| && e in q[e.qno])
  }

  lemma IndexedWithout(q: seq<seq<Entry>>, linked: set<Entry>, qn: nat, i: nat)
    requires Indexed(q, linked) && qn < |q| && i < |q[qn]| && NoDup(q[qn])
    ensures Indexed(q[qn := q[qn][..i] + q[qn][i + 1..]], linked - {q[qn][i]})
  {
  }

  lemma IndexedWith(q: seq<seq<Entry>>, linked: set<Entry>, qn: nat, p: Entry)
    requires Indexed(q, linked) && qn < |q| && p !in linked && p.qno == qn
    ensures Indexed(q[qn := q[qn] + [p]], linked + {p})
  {
  }

  lemma IndexedApart(q: seq<seq<Entry>>, linked: set<Entry>, k: nat, l: nat)
    requires Indexed(q, linked) && k < |q| && l < |q| && k != l
    ensures forall e :: e in q[k] ==> e in linked && e !in q[l]
  {
  }

  /** p is not in queue qn, but its links still name the i-th place there: it was taken out of it and nothing has come between. */
  ghost predicate Stale(qn: nat, s: seq<Entry>, p: Entry, i: nat)
    reads p
  {
    p !in s && i <= |s| && p.next == At(s, i) && p.pprev == SlotOf(qn, s, i)
  }

  ghost function TakenOut(s: seq<Entry>, p: Entry, i: nat): seq<Entry> {
    if i < |s| && s[i] == p then s[..i] + s[i + 1..] else s
  }

  /** remove, seen from the one queue that holds p, or held it. */
  method UnlinkFrom(h: Head, p: Entry, ghost qn: nat, ghost s: seq<Entry>, ghost i: nat) returns (h': Head)
    requires QueueOk(qn, s, h) && ((i < |s| && s[i] == p) || Stale(qn, s, p, i))
    modifies s`next, s`pprev
    ensures QueueOk(qn, TakenOut(s, p, i), h')
    ensures p.next == old(p.next) && p.pprev == old(p.pprev)
  {
    h' := h;
    assert i < |s| && s[i] == p ==> p.next == At(s, i + 1) && p.pprev == SlotOf(qn, s, i);
    if p.next != null {
      p.next.pprev := p.pprev;
    } else {
      h' := h'.(plast := p.pprev);
    }
    match p.pprev {
      case First(_) => h' := h'.(first := p.next);
      case NextOf(e) => e.next := p.next;
    }
    if i < |s| && s[i] == p {
      Unlinked(qn, s, i, h');
    }
  }

  /** insert, seen from the one queue that p is appended to. */
  method AppendTo(h: Head, p: Entry, qn: nat, tm: int, ghost s: seq<Entry>) returns (h': Head)
    requires QueueOk(qn, s, h) && p !in s
    modifies p, s`next
    ensures QueueOk(qn, s + [p], h') && p.tm == tm && p.qno == qn
  {
    h' := h;
    p.qno := qn;
    p.tm := tm;
    p.next := null;
    p.pprev := h.plast;
    match h.plast {
      case First(_) => h' := h'.(first := p);
      case NextOf(e) => e.next := p;
    }
    h' := h'.(plast := NextOf(p));
    Appended(qn, s, p, h');
  }

  /** All queues are well linked, and an entry is in exactly the queue its qno names. */
  ghost predicate Queues(q: seq<seq<Entry>>, queue: seq<Head>, linked: set<Entry>)
    reads linked
  {
    && |q| == |queue| && Indexed(q, linked)
    && forall k :: 0 <= k < |q| ==> QueueOk(k, q[k], queue[k])
  }

  /** p is in its queue at place i, or its links are stale and name that place. */
  ghost predicate Removable(q: seq<seq<Entry>>, linked: set<Entry>, p: Entry, i: nat)
    reads p
  {
    p.qno < |q| && if p in linked then i < |q[p.qno]| && q[p.qno][i] == p else Stale(p.qno, q[p.qno], p, i)
  }

  method UnlinkEntry(queue: seq<Head>, p: Entry, ghost q: seq<seq<Entry>>, ghost linked: set<Entry>, ghost i: nat)
    returns (queue': seq<Head>)
    requires Queues(q, queue, linked) && Removable(q, linked, p, i)
    modifies linked`next, linked`pprev
    ensures Queues(q[p.qno := TakenOut(q[p.qno], p, i)], queue', linked - {p})
    ensures p.next == old(p.next) && p.pprev == old(p.pprev)
  {
    hide QueueOk, TakenOut, Stale;
    ghost var qn, s := p.qno, q[p.qno];
    IndexedTakenOut(q, queue, linked, p, i);
    forall k | 0 <= k < |q| && k != qn
      ensures forall e :: e in q[k] ==> e !in s
    {
      IndexedApart(q, linked, k, qn);
    }
    var h := UnlinkFrom(queue[p.qno], p, qn, s, i);
    queue' := queue[p.qno := h];
    forall k | 0 <= k < |q| && k != qn
      ensures QueueOk(k, q[k], queue[k])
    {
      assert old(QueueOk(k, q[k], queue[k]));
    }
  }

  lemma IndexedTakenOut(q: seq<seq<Entry>>, queue: seq<Head>, linked: set<Entry>, p: Entry, i: nat)
    requires Queues(q, queue, linked) && Removable(q, linked, p, i)
    ensures QueueOk(p.qno, q[p.qno], queue[p.qno])
    ensures (i < |q[p.qno]| && q[p.qno][i] == p) || Stale(p.qno, q[p.qno], p, i)
    ensures Indexed(q[p.qno := TakenOut(q[p.qno], p, i)], linked - {p})
    ensures forall e :: e in q[p.qno] ==> e in linked
  {
    if p in linked {
      IndexedWithout(q, linked, p.qno, i);
    } else {
      assert linked - {p} == linked && q[p.qno := q[p.qno]] == q;
    }
  }

  method AppendEntry(queue: seq<Head>, p: Entry, qn: nat, tm: int, ghost q: seq<seq<Entry>>, ghost linked: set<Entry>)
    returns (queue': seq<Head>)
    requires Queues(q, queue, linked) && p !in linked && qn < |q|
    modifies p, linked`next
    ensures Queues(q[qn := q[qn] + [p]], queue', linked + {p}) && p.tm == tm && p.qno == qn
  {
    ghost var s := q[qn];
    assert QueueOk(qn, s, queue[qn]);
    forall k | 0 <= k < |q| && k != qn
      ensures forall e :: e in q[k] ==> e !in s && e != p
    {
      IndexedApart(q, linked, k, qn);
    }
    var h := AppendTo(queue[qn], p, qn, tm, s);
    queue' := queue[qn := h];
    IndexedWith(q, linked, qn, p);
  }

  /** The entries of linked carry the deadlines of tm. */
  ghost predicate Deadlines(tm: map<Entry, int>, linked: set<Entry>)
    reads linked`tm
  {
    linked == tm.Keys && forall e :: e in linked ==> e.tm == tm[e]
  }

  lemma DeadlinesWith(tm: map<Entry, int>, linked: set<Entry>, p: Entry)
    requires Deadlines(tm, linked)
    ensures Deadlines(tm[p := p.tm], linked + {p})
  {
  }

  /** qno names the queue of a linked entry. */
  lemma PlaceOf(q: seq<seq<Entry>>, queue: seq<Head>, linked: set<Entry>, e: Entry) returns (i: nat)
    requires Queues(q, queue, linked) && e in linked
    ensures e.qno < |q| && i < |q[e.qno]| && q[e.qno][i] == e
  {
    i :| 0 <= i < |q[e.qno]| && q[e.qno][i] == e;
  }

  lemma EntryAt(q: seq<seq<Entry>>, queue: seq<Head>, linked: set<Entry>, k: nat, i: nat)
    requires Queues(q, queue, linked) && k < |q| && i < |q[k]|
    ensures q[k][i] in linked && q[k][i].qno == k
  {
  }

  lemma QueuesSeparate(q: seq<seq<Entry>>, queue: seq<Head>, linked: set<Entry>)
    requires Queues(q, queue, linked)
    ensures Separate(q)
  {
  }

  class Tmoq {
    const maxsend: nat
    const delay: nat -> nat    // minto << qn
    var queue: seq<Head>
    var pending: seq<bool>
    var timers: seq<seq<int>>  // the times of the callbacks to tcb that timecb has accepted, for each queue
    var clock: int             // the last time read
    ghost var st: Sched<Entry>
    ghost var linked: set<Entry>

    ghost predicate Valid()
      reads this, linked
    {
      && |st.q| == maxsend > 0 && Good(st, delay)
      && st.pending == pending && st.timers == timers && st.clock == clock
      && Queues(st.q, queue, linked)
      && Deadlines(st.tm, linked)
    }

    constructor (minto: nat, maxsend: nat, now: int)
      requires maxsend > 0
      ensures Ready() && linked == {} && st.trace == [] && this.maxsend == maxsend && clock == now
      ensures forall k :: 0 <= k < maxsend ==> st.q[k] == [] && !st.pending[k]
      ensures forall k :: delay(k) == Shifted(minto, k)
    {
      this.maxsend := maxsend;
      delay := qn => Shifted(minto, qn);
      queue := seq(maxsend, k requires 0 <= k => Head(null, First(k)));
      pending := seq(maxsend, _ => false);
      timers := seq(maxsend, _ => []);
      clock := now;
      linked := {};
      st := Sched(seq(maxsend, _ => []), map[], seq(maxsend, _ => false), seq(maxsend, _ => []), now, []);
    }

    /** time (NULL), which says now; the clock does not go back. */
    method Time(now: int)
      requires Valid() && now >= clock
      modifies this`clock, this`st
      ensures Valid() && st == Tick(old(st), now)
    {
      hide Good, Queues, Deadlines;
      TickGood(st, delay, now);
      clock := now;
      st := Tick(st, now);
    }

    /** schedq: asks for a callback at the deadline of the head, if none is pending. */
    method SchedQ(qn: nat)
      requires Valid() && qn < maxsend
      modifies this`pending, this`timers, this`st
      ensures Valid() && (old(st).q[qn] != [] ==> old(st).q[qn][0] in old(st).tm)
      ensures st == Schedule(old(st), qn)
      ensures if old(pending[qn]) || old(st).q[qn] == [] then pending == old(pending) && timers == old(timers)
              else pending == old(pending)[qn := true] && timers == old(timers)[qn := old(timers[qn]) + [old(st).tm[old(st).q[qn][0]]]]
    {
      hide Good;
      var p := queue[qn].first;
      assert QueueOk(qn, st.q[qn], queue[qn]);
      assert |st.pending| == |st.timers| == maxsend && QueueGood(st, delay, qn) by {
        GoodQueue(st, delay, qn);
      }
      ScheduleGood(st, delay, qn);
      ghost var st' := Schedule(st, qn);
      if !pending[qn] && p != null {
        assert p == st.q[qn][0] && p.tm == st.tm[p];
        pending := pending[qn := true];
        timers := timers[qn := timers[qn] + [p.tm]];
      }
      st := st';
    }

    /** The part of insert that links p. */
    method Link(p: Entry, qn: nat, t: int)
      requires Valid() && p !in linked && qn < maxsend && t == clock
      requires Backed(History(st.trace, p), delay, qn, clock)
      modifies this`queue, this`st, this`linked, p, linked`next
      ensures Valid() && linked == old(linked) + {p} && p.qno == qn && p.tm == t + delay(qn)
      ensures st == Append(old(st), delay, qn, p)
      ensures st.q == old(st).q[qn := old(st).q[qn] + [p]] && st.trace == old(st).trace + [Sent(p, qn, t)]
    {
      hide Good, Queues;
      AppendGood(st, delay, qn, p);
      queue := AppendEntry(queue, p, qn, t + delay(qn), st.q, linked);
      DeadlinesWith(st.tm, linked, p);
      linked := linked + {p};
      st := Append(st, delay, qn, p);
    }

    /** insert: p goes to the end of queue qn, is scheduled and transmitted; time is what time (NULL) says if now is zero. */
    method Insert(p: Entry, qn: nat, now: int, time: int, ghost isNew: bool)
      requires Valid() && p !in linked && qn < maxsend && (if now == 0 then time >= clock else now == clock)
      requires if isNew then qn == 0 else Backed(History(st.trace, p), delay, qn, clock)
      modifies this`queue, this`pending, this`timers, this`clock, this`st, this`linked, p, linked`next
      ensures Valid() && linked == old(linked) + {p} && clock == (if now == 0 then time else now)
      ensures Insertable(old(st), qn) && st == Backoff.Insert(old(st), delay, qn, p, clock, isNew)
      ensures p.qno == qn && p.tm == clock + delay(qn) && st.q == old(st).q[qn := old(st).q[qn] + [p]]
      ensures st.trace == old(st).trace + (if isNew then [Started(p, clock)] else []) + [Sent(p, qn, clock)]
    {
      hide Good, Queues;
      HeadsQueued(st, delay);
      GoodQueue(st, delay, 0);
      var t := now;
      if now == 0 {
        Time(time);
        t := time;
      } else {
        assert Tick(st, now) == st;
      }
      if isNew {
        NoteGood(st, delay, Started(p, t));
        HistorySnoc(st.trace, Started(p, t), p);
        st := Note(st, Started(p, t));
      }
      Link(p, qn, t);
      SchedQ(qn);
    }

    /** The body of remove, of an entry whose qno is below maxsend. */
    method Unlink(p: Entry, ghost i: nat)
      requires Valid() && Removable(st.q, linked, p, i)
      modifies this`queue, this`st, this`linked, linked`next, linked`pprev
      ensures Valid() && linked == old(linked) - {p}
      ensures if p in old(linked) then i < |old(st).q[p.qno]| && st == Backoff.Unlink(old(st), p.qno, i) else st == old(st)
      ensures st.trace == old(st).trace && (p in old(linked) ==> st.q == old(st).q[p.qno := Without(old(st).q[p.qno], i)])
    {
      hide Good, Queues;
      QueuesSeparate(st.q, queue, linked);
      queue := UnlinkEntry(queue, p, st.q, linked, i);
      if p in linked {
        UnlinkGood(st, delay, p.qno, i);
        st := Backoff.Unlink(st, p.qno, i);
      } else {
        assert st.q[p.qno := TakenOut(st.q[p.qno], p, i)] == st.q;
      }
      linked := linked - {p};
    }

    // ---------------------------------------------------------------- the public operations

    /** What holds between calls, outside of tcb. */
    ghost predicate Ready()
      reads this, linked
    {
      Valid() && Awake(st) && KeptBut(st, {})
    }

    /** start, of an entry that is in no queue */
    method Start(p: Entry, time: int)
      requires Ready() && p !in linked && time >= clock
      modifies this`queue, this`pending, this`timers, this`clock, this`st, this`linked, p, linked`next
      ensures Ready() && linked == old(linked) + {p} && clock == time
      ensures History(st.trace, p) == Running(time, [0])
      ensures Insertable(old(st), 0) && st == Backoff.Insert(old(st), delay, 0, p, time, true)
      ensures p.qno == 0 && p.tm == time + delay(0) && st.trace == old(st).trace + [Started(p, time), Sent(p, 0, time)]
    {
      hide Good, Queues;
      HeadsQueued(st, delay);
      GoodQueue(st, delay, 0);
      ghost var st0 := st;
      assert KeptBut(st, {p});
      Insert(p, 0, 0, time, true);
      InsertAwake(st0, delay, 0, p, clock, true, -1);
      InsertKept(st0, delay, 0, p, clock, true);
      HistorySnoc(st0.trace, Started(p, clock), p);
      HistorySnoc(st0.trace + [Started(p, clock)], Sent(p, 0, clock), p);
    }

    /** keeptrying, of an entry whose qno is maxsend or more; but is the queue being run, or -1 */
    method KeepTrying(p: Entry, time: int, ghost but: int)
      requires Valid() && AwakeBut(st, but) && KeptBut(st, {}) && p.qno >= maxsend && time >= clock
      modifies this`queue, this`pending, this`timers, this`clock, this`st, this`linked, p, linked`next
      ensures Valid() && AwakeBut(st, but) && KeptBut(st, {}) && linked == old(linked) + {p}
      ensures clock == time && p.qno == maxsend - 1 && p.tm == time + delay(maxsend - 1)
      ensures Insertable(old(st), maxsend - 1) && st == Backoff.Insert(old(st), delay, maxsend - 1, p, time, false)
      ensures st.trace == old(st).trace + [Sent(p, maxsend - 1, time)]
    {
      hide Good, Queues;
      HeadsQueued(st, delay);
      GoodQueue(st, delay, 0);
      if p in linked {
        var i := PlaceOf(st.q, queue, linked, p);
      }
      KeptMeans(st, {}, p);
      ghost var st0 := st;
      Insert(p, maxsend - 1, 0, time, false);
      InsertAwake(st0, delay, maxsend - 1, p, clock, false, but);
      assert KeptBut(st0, {p});
      InsertKept(st0, delay, maxsend - 1, p, clock, false);
      assert st.q[maxsend - 1][|st0.q[maxsend - 1]|] == p;
      EntryAt(st.q, queue, linked, maxsend - 1, |st0.q[maxsend - 1]|);
    }

    /**
     remove, by the owner of an entry: one in a queue is taken out of it; for one past its last send or
     never started, and for one already removed whose old neighbours are still next to each other,
     nothing changes.
     */
    method Remove(p: Entry, ghost i: nat)
      requires Ready() && (p.qno >= maxsend || Removable(st.q, linked, p, i))
      modifies this`queue, this`st, this`linked, linked`next, linked`pprev
      ensures Ready() && linked == old(linked) - {p} && p.qno == old(p.qno)
      ensures p !in old(linked) ==> st == old(st)
      ensures p in old(linked) ==>
                && p.qno < |old(st).q| && i < |old(st).q[p.qno]| && old(st).q[p.qno][i] == p
                && st.q == old(st).q[p.qno := Without(old(st).q[p.qno], i)] && st.trace == old(st).trace + [Removed(p)]
    {
      hide Good, Queues;
      if p in linked {
        var j := PlaceOf(st.q, queue, linked, p);
      }
      if p.qno < maxsend {
        ghost var st0, was := st, p in linked;
        if was { UnlinkKept(st, p.qno, i); }
        Unlink(p, i);
        if was {
          NoteGood(st, delay, Removed(p));
          HistorySnoc(st.trace, Removed(p), p);
          KeptNote(st, Note(st, Removed(p)), p, Removed(p));
          st := Note(st, Removed(p));
        }
      }
    }

    // ---------------------------------------------------------------- the timer callback

    /** The head of a queue, if it has expired. */
    method Expired(qn: nat, now: int) returns (p: Entry?)
      requires Valid() && qn < maxsend
      ensures if p == null then !HeadDue(st, qn, now) else HeadDue(st, qn, now) && p == st.q[qn][0] && p in linked && p.qno == qn
    {
      p := queue[qn].first;
      assert QueueOk(qn, st.q[qn], queue[qn]) && QueueGood(st, delay, qn);
      if p != null && p.tm > now {
        p := null;
      }
    }

    /** remove (p), of the head of queue qn, which has expired at time now */
    method UnlinkHead(qn: nat, now: int, p: Entry)
      requires Valid() && AwakeBut(st, qn) && KeptBut(st, {}) && qn < maxsend
      requires HeadDue(st, qn, now) && p == st.q[qn][0] && p in linked && p.qno == qn
      modifies this`queue, this`st, this`linked, linked`next, linked`pprev
      ensures Valid() && AwakeBut(st, qn) && KeptBut(st, {p}) && linked == old(linked) - {p}
      ensures st == Backoff.Unlink(old(st), qn, 0) && Backed(History(st.trace, p), delay, qn + 1, now)
    {
      hide Good, Queues;
      HeadBacked(st, delay, qn, now);
      UnlinkKept(st, qn, 0);
      Unlink(p, 0);
    }

    /** p, just unlinked from queue qn, goes on to the next one. */
    method MoveOn(qn: nat, now: int, time: int, p: Entry)
      requires Valid() && AwakeBut(st, qn) && KeptBut(st, {p}) && qn < maxsend - 1 && p !in linked
      requires if now == 0 then time >= clock else now == clock
      requires Backed(History(st.trace, p), delay, qn + 1, clock)
      modifies this`queue, this`pending, this`timers, this`clock, this`st, this`linked, p, linked`next
      ensures Valid() && AwakeBut(st, qn) && KeptBut(st, {}) && linked == old(linked) + {p}
      ensures Insertable(old(st), qn + 1) && st == Backoff.Insert(old(st), delay, qn + 1, p, if now != 0 then now else time, false)
      ensures st.trace == old(st).trace + [Sent(p, qn + 1, if now != 0 then now else time)]
    {
      hide Good, Queues;
      HeadsQueued(st, delay);
      GoodQueue(st, delay, 0);
      ghost var st1 := st;
      Insert(p, qn + 1, now, time, false);
      InsertAwake(st1, delay, qn + 1, p, clock, false, qn);
      InsertKept(st1, delay, qn + 1, p, clock, false);
    }

    /** p, just unlinked from the last queue, times out; its timeout may keep trying. */
    method GiveUp(now: int, p: Entry, r: Reading)
      requires Valid() && AwakeBut(st, maxsend - 1) && KeptBut(st, {p}) && p !in linked && r.time >= clock
      requires Backed(History(st.trace, p), delay, maxsend, now)
      modifies this`queue, this`pending, this`timers, this`clock, this`st, this`linked, p, linked`next
      ensures Valid() && AwakeBut(st, maxsend - 1) && KeptBut(st, {}) && linked <= old(linked) + {p}
      ensures var st2 := Note(old(st), TimedOut(p, now));
              if r.keep then Insertable(st2, maxsend - 1) && st == Backoff.Insert(st2, delay, maxsend - 1, p, r.time, false) else st == st2
      ensures st.trace == old(st).trace + [TimedOut(p, now)] + if r.keep then [Sent(p, maxsend - 1, r.time)] else []
    {
      hide Good, Queues, Deadlines, Backoff.Insert, KeptBut, AwakeBut, Insertable, Backed, History;
      NoteTimeout(now, p);
      if r.keep {
        KeepTrying(p, r.time, maxsend - 1);
      }
    }

    /** p->qno = maxsend, and timeout () is called. */
    method NoteTimeout(now: int, p: Entry)
      requires Valid() && AwakeBut(st, maxsend - 1) && KeptBut(st, {p}) && p !in linked
      requires Backed(History(st.trace, p), delay, maxsend, now)
      modifies this`st, p`qno
      ensures Valid() && AwakeBut(st, maxsend - 1) && KeptBut(st, {})
      ensures p.qno == maxsend && st == Note(old(st), TimedOut(p, now)) && st.trace == old(st).trace + [TimedOut(p, now)]
    {
      hide Good, Queues, KeptBut, AwakeBut, Backed;
      p.qno := maxsend;
      NoteGood(st, delay, TimedOut(p, now));
      HistorySnoc(st.trace, TimedOut(p, now), p);
      KeptNote(st, Note(st, TimedOut(p, now)), p, TimedOut(p, now));
      AwakeNote(st, TimedOut(p, now), maxsend - 1);
      st := Note(st, TimedOut(p, now));
    }

    /** One round of runq: the head p has expired, and moves to the next queue or times out. */
    method RunOne(qn: nat, now: int, p: Entry, r: Reading)
      requires Valid() && AwakeBut(st, qn) && KeptBut(st, {}) && qn < maxsend
      requires Clocked(st, qn, now) && r.time >= clock
      requires HeadDue(st, qn, now) && p == st.q[qn][0] && p in linked && p.qno == qn
      modifies this`queue, this`pending, this`timers, this`clock, this`st, this`linked, linked
      ensures Valid() && AwakeBut(st, qn) && KeptBut(st, {}) && linked <= old(linked)
      ensures Sound(old(st), delay) && st == Round(old(st), delay, qn, now, r)
      ensures st.trace == old(st).trace +
                if qn < maxsend - 1 then [Sent(p, qn + 1, if now != 0 then now else r.time)]
                else [TimedOut(p, now)] + if r.keep then [Sent(p, maxsend - 1, r.time)] else []
    {
      hide Good, Queues, KeptBut, Deadlines, AwakeBut, Backoff.Insert;
      QueuesSeparate(st.q, queue, linked);
      UnlinkHead(qn, now, p);
      if qn < maxsend - 1 {
        BackedLater(History(st.trace, p), delay, qn + 1, now, clock);
        MoveOn(qn, now, r.time, p);
      } else {
        GiveUp(now, p, r);
      }
    }

    /**
     runq, at time now: wherever the loop ends at all (RunqEndsIff), it does what Rounds says and leaves
     nothing in queue qn that was due when it began.
     */
    method RunQ(qn: nat, now: int, env: nat -> Reading) returns (rounds: nat)
      requires Valid() && AwakeBut(st, qn) && KeptBut(st, {}) && qn < maxsend && now >= clock
      requires Forward(env, now) && WillEnd(Tick(st, now), delay, qn, now, env)
      modifies this`queue, this`pending, this`timers, this`clock, this`st, this`linked, linked
      ensures Valid() && AwakeBut(st, qn) && KeptBut(st, {}) && linked <= old(linked) && now <= clock <= env(rounds).time
      ensures Sound(Tick(old(st), now), delay) && st == Rounds(Tick(old(st), now), delay, qn, now, env, rounds)
      ensures forall i :: 0 <= i < |st.q[qn]| ==> st.q[qn][i] in st.tm && st.tm[st.q[qn][i]] > now
    {
      hide Good, Queues, KeptBut, Deadlines, AwakeBut, WillEnd, Rounds;
      QueuesSeparate(st.q, queue, linked);
      AwakeTick(st, now, qn);
      Time(now);
      KeptTick(old(st), st, {});
      rounds := RunLoop(qn, now, env);
    }

    /** The loop of runq, once now has been read. */
    method RunLoop(qn: nat, now: int, env: nat -> Reading) returns (rounds: nat)
      requires Valid() && AwakeBut(st, qn) && KeptBut(st, {}) && qn < maxsend && now == clock
      requires Forward(env, now) && WillEnd(st, delay, qn, now, env)
      modifies this`queue, this`pending, this`timers, this`clock, this`st, this`linked, linked
      ensures Valid() && AwakeBut(st, qn) && KeptBut(st, {}) && linked <= old(linked) && now <= clock <= env(rounds).time
      ensures Sound(old(st), delay) && st == Rounds(old(st), delay, qn, now, env, rounds)
      ensures forall i :: 0 <= i < |st.q[qn]| ==> st.q[qn][i] in st.tm && st.tm[st.q[qn][i]] > now
    {
      hide Good, Queues, KeptBut, Deadlines, AwakeBut, WillEnd, Due, Retired, Rounds, Round;
      QueuesSeparate(st.q, queue, linked);
      ghost var st0 := st;
      RoundsNext(st0, delay, qn, now, env, 0);
      ghost var enough := EnoughRounds(st0, delay, qn, now, env);
      rounds := 0;
      var p := Expired(qn, now);
      while p != null
        invariant Valid() && AwakeBut(st, qn) && KeptBut(st, {}) && linked <= old(linked)
        invariant st == Rounds(st0, delay, qn, now, env, rounds)
        invariant if p == null then !HeadDue(st, qn, now) else HeadDue(st, qn, now) && p == st.q[qn][0] && p in linked && p.qno == qn
        decreases enough - rounds
      {
        StillDue(st0, delay, qn, now, env, enough, rounds);
        RoundsNext(st0, delay, qn, now, env, rounds);
        RunOne(qn, now, p, env(rounds));
        rounds := rounds + 1;
        p := Expired(qn, now);
      }
      HeadIsDue(st, delay, qn, now);
    }

    /**
     tcb, called by the event loop for a timer of queue qn, not before its time: every queue that
     is not empty is again pending, and queue qn holds nothing that is due.
     */
    method Tcb(qn: nat, now: int, env: nat -> Reading) returns (rounds: nat)
      requires Ready() && qn < maxsend && timers[qn] != [] && now >= clock && now >= timers[qn][0]
      requires Forward(env, now) && WillEnd(Tick(st, now), delay, qn, now, env)
      modifies this`queue, this`pending, this`timers, this`clock, this`st, this`linked, linked
      ensures Ready() && linked <= old(linked) && now <= clock
      ensures forall i :: 0 <= i < |st.q[qn]| ==> st.q[qn][i] in st.tm && st.tm[st.q[qn][i]] > now
      ensures Fireable(old(st), delay, qn, now) && st == Called(old(st), delay, qn, now, env, rounds)
    {
      hide Good, Queues, KeptBut, Deadlines, Rounds;
      ghost var st0 := st;
      GoodQueue(st, delay, qn);
      QueuesSeparate(st.q, queue, linked);
      clock := now;
      timers := timers[qn := []];
      pending := pending[qn := false];
      FireGood(st, delay, qn, now);
      st := Fire(st, qn, now);
      KeptTick(st0, st, {});
      assert Tick(st, now) == st;
      rounds := RunQ(qn, now, env);
      ghost var st1 := st;
      SchedQ(qn);
      GoodQueue(st1, delay, qn);
      ScheduleGood(st1, delay, qn);
      KeptTick(st1, st, {});
    }
  }
}
