/**
 The scheduling of tmoq, without pointers: one queue for each number of sends, ordered by
 deadline and woken by at most one timer, with growing delays between them. Entries are of
 any type T; Tmoq.dfy links them in memory.
 */
module Backoff {
  import opened Powers
  import opened Sequences

  const U_INT_SIZE: nat := 0x1_0000_0000

  /** minto << qn, in 32 bits */
  function Shifted(minto: nat, qn: nat): nat {
    minto * Pow2(qn) % U_INT_SIZE
  }

  // ---------------------------------------------------------------- what has happened to an entry

  datatype Event<T> =
    | Started(e: T, t: int)
    | Sent(e: T, qn: nat, t: int)  // xmit (qn)
    | TimedOut(e: T, t: int)       // timeout ()
    | Removed(e: T)

  /** An entry runs from start until its first timeout or until its owner removes it. */
  datatype Phase = Idle | Running(start: int, sent: seq<nat>) | Over

  ghost function After<T>(phase: Phase, ev: Event<T>): Phase {
    match ev
    case Started(_, t) => Running(t, [])
    case Sent(_, qn, _) => if phase.Running? then phase.(sent := phase.sent + [qn]) else phase
    case TimedOut(_, _) => Over
    case Removed(_) => Idle
  }

  ghost function History<T>(trace: seq<Event<T>>, e: T): Phase {
    if trace == [] then Idle
    else
      var last := trace[|trace| - 1];
      if last.e == e then After(History(trace[..|trace| - 1], e), last) else History(trace[..|trace| - 1], e)
  }

  lemma HistorySnoc<T>(trace: seq<Event<T>>, ev: Event<T>, e: T)
    ensures History(trace + [ev], e) == if ev.e == e then After(History(trace, e), ev) else History(trace, e)
  {
  }

  /** 0, 1, ..., n - 1 */
  ghost function Upto(n: nat): (s: seq<nat>)
    ensures |s| == n && forall i :: 0 <= i < n ==> s[i] == i
  {
    if n == 0 then [] else Upto(n - 1) + [n - 1]
  }

  /** The sum of the first n delays. */
  ghost function Total(delay: nat -> nat, n: nat): nat {
    if n == 0 then 0 else Total(delay, n - 1) + delay(n - 1)
  }

  lemma TwiceProduct(a: nat, b: nat)
    ensures a * (2 * b) == 2 * (a * b)
  {
  }

  /** The sends with 0, ..., n - 1 have been made, and at time t their delays have passed. */
  ghost predicate Backed(phase: Phase, delay: nat -> nat, n: nat, t: int) {
    phase.Running? ==> phase.sent == Upto(n) && t >= phase.start + Total(delay, n)
  }

  /** If event j is the first timeout of an entry, it comes after all sends, in order, and after all their delays. */
  ghost predicate HonestAt<T>(trace: seq<Event<T>>, delay: nat -> nat, maxsend: nat, j: nat)
    requires j < |trace|
  {
    trace[j].TimedOut? ==> Backed(History(trace[..j], trace[j].e), delay, maxsend, trace[j].t)
  }

  ghost predicate Honest<T>(trace: seq<Event<T>>, delay: nat -> nat, maxsend: nat) {
    forall j :: 0 <= j < |trace| ==> HonestAt(trace, delay, maxsend, j)
  }

  lemma HonestSnoc<T>(trace: seq<Event<T>>, ev: Event<T>, delay: nat -> nat, maxsend: nat)
    requires Honest(trace, delay, maxsend)
    requires ev.TimedOut? ==> Backed(History(trace, ev.e), delay, maxsend, ev.t)
    ensures Honest(trace + [ev], delay, maxsend)
  {
    var trace' := trace + [ev];
    forall j | 0 <= j < |trace'|
      ensures HonestAt(trace', delay, maxsend, j)
    {
      assert trace'[..j] == trace[..j];
      assert j < |trace| ==> HonestAt(trace, delay, maxsend, j);
    }
  }

  // ---------------------------------------------------------------- the scheduler

  /** timers holds, for each queue, the times of the callbacks to tcb that timecb has accepted. */
  datatype Sched<T> = Sched(q: seq<seq<T>>, tm: map<T, int>, pending: seq<bool>, timers: seq<seq<int>>,
                            clock: int, trace: seq<Event<T>>)

  /** Deadlines are in order, and none is later than limit. */
  ghost predicate Ordered<T>(s: seq<T>, tm: map<T, int>, limit: int) {
    && (forall i :: 0 <= i < |s| ==> s[i] in tm && tm[s[i]] <= limit)
    && (forall i, j :: 0 <= i < j < |s| ==> tm[s[i]] <= tm[s[j]])
  }

  /** A pending queue has exactly one timer, no later than its head and than anything inserted from now on. */
  ghost predicate TimerOk<T>(s: seq<T>, tm: map<T, int>, pending: bool, timers: seq<int>, limit: int) {
    && |timers| == (if pending then 1 else 0)
    && (pending ==> timers[0] <= limit && (s != [] ==> s[0] in tm && timers[0] <= tm[s[0]]))
  }

  /** Every running entry of queue k has been sent k + 1 times, and not too fast. */
  ghost predicate Followed<T>(s: seq<T>, tm: map<T, int>, trace: seq<Event<T>>, delay: nat -> nat, k: nat) {
    forall i :: 0 <= i < |s| ==> s[i] in tm && Backed(History(trace, s[i]), delay, k + 1, tm[s[i]])
  }

  ghost predicate QueueGood<T>(st: Sched<T>, delay: nat -> nat, k: nat)
    requires k < |st.q| == |st.pending| == |st.timers|
  {
    && Ordered(st.q[k], st.tm, st.clock + delay(k))
    && TimerOk(st.q[k], st.tm, st.pending[k], st.timers[k], st.clock + delay(k))
    && Followed(st.q[k], st.tm, st.trace, delay, k)
  }

  ghost predicate Good<T>(st: Sched<T>, delay: nat -> nat) {
    && |st.q| == |st.pending| == |st.timers| > 0
    && (forall k :: 0 <= k < |st.q| ==> QueueGood(st, delay, k))
    && Honest(st.trace, delay, |st.q|)
  }

  /** No lost wake-up: every queue other than qn is empty or waits for a timer. */
  ghost predicate AwakeBut<T>(st: Sched<T>, qn: int) {
    |st.q| == |st.pending| && forall k :: 0 <= k < |st.q| && k != qn && st.q[k] != [] ==> st.pending[k]
  }

  ghost predicate Awake<T>(st: Sched<T>) {
    AwakeBut(st, -1)
  }

  ghost function Tick<T>(st: Sched<T>, now: int): Sched<T> {
    st.(clock := now)
  }

  ghost function Note<T>(st: Sched<T>, ev: Event<T>): Sched<T> {
    st.(trace := st.trace + [ev])
  }

  ghost function Unlink<T>(st: Sched<T>, qn: nat, i: nat): Sched<T>
    requires qn < |st.q| && i < |st.q[qn]|
  {
    st.(q := st.q[qn := Without(st.q[qn], i)], tm := st.tm - {st.q[qn][i]})
  }

  /** p goes to the end of queue qn, and is sent. */
  ghost function Append<T>(st: Sched<T>, delay: nat -> nat, qn: nat, p: T): Sched<T>
    requires qn < |st.q|
  {
    st.(q := st.q[qn := st.q[qn] + [p]], tm := st.tm[p := st.clock + delay(qn)],
        trace := st.trace + [Sent(p, qn, st.clock)])
  }

  /** schedq */
  ghost function Schedule<T>(st: Sched<T>, qn: nat): Sched<T>
    requires qn < |st.q| == |st.pending| == |st.timers|
    requires st.q[qn] != [] ==> st.q[qn][0] in st.tm
  {
    if !st.pending[qn] && st.q[qn] != [] then
      st.(pending := st.pending[qn := true], timers := st.timers[qn := st.timers[qn] + [st.tm[st.q[qn][0]]]])
    else st
  }

  /** The entry of each place is nowhere else. */
  ghost predicate Separate<T>(q: seq<seq<T>>) {
    && (forall k, i, j :: 0 <= k < |q| && 0 <= i < j < |q[k]| ==> q[k][i] != q[k][j])
    && (forall k, l, i, j :: 0 <= k < l < |q| && 0 <= i < |q[k]| && 0 <= j < |q[l]| ==> q[k][i] != q[l][j])
  }

  // ---------------------------------------------------------------- every operation keeps it good

  lemma TickGood<T>(st: Sched<T>, delay: nat -> nat, now: int)
    requires Good(st, delay) && st.clock <= now
    ensures Good(Tick(st, now), delay)
  {
    forall k | 0 <= k < |st.q|
      ensures QueueGood(Tick(st, now), delay, k)
    {
      assert QueueGood(st, delay, k);
    }
  }

  lemma ScheduleGood<T>(st: Sched<T>, delay: nat -> nat, qn: nat)
    requires Good(st, delay) && qn < |st.q| && QueueGood(st, delay, qn)
    ensures Good(Schedule(st, qn), delay)
    ensures AwakeBut(st, qn) ==> Awake(Schedule(st, qn))
  {
    var st' := Schedule(st, qn);
    forall k | 0 <= k < |st'.q|
      ensures QueueGood(st', delay, k)
    {
      assert QueueGood(st, delay, k);
    }
  }

  /** A queue that p is not appended to */
  lemma AppendElsewhere<T>(st: Sched<T>, delay: nat -> nat, qn: nat, p: T, k: nat)
    requires k < |st.q| == |st.pending| == |st.timers| && QueueGood(st, delay, k) && qn < |st.q| && qn != k && p !in st.tm
    ensures QueueGood(Append(st, delay, qn, p), delay, k)
  {
    hide History, Backed;
    FollowedSnoc(st.q[k], st.tm, st.trace, Sent(p, qn, st.clock), delay, k);
  }

  /** The queue that p is appended to: its deadline is the latest one allowed. */
  lemma AppendHere<T>(st: Sched<T>, delay: nat -> nat, qn: nat, p: T)
    requires qn < |st.q| == |st.pending| == |st.timers| && QueueGood(st, delay, qn) && p !in st.tm
    requires Backed(History(st.trace, p), delay, qn, st.clock)
    ensures QueueGood(Append(st, delay, qn, p), delay, qn)
  {
    var s, tm', limit := st.q[qn], st.tm[p := st.clock + delay(qn)], st.clock + delay(qn);
    var ev := Sent(p, qn, st.clock);
    SentIsBacked(st.trace, p, delay, qn, st.clock);
    FollowedSnoc(s, st.tm, st.trace, ev, delay, qn);
    hide History, Backed;
    assert Ordered(s + [p], tm', limit) by {
      assert forall i :: 0 <= i < |s| ==> (s + [p])[i] == s[i] && s[i] != p;
    }
    assert TimerOk(s + [p], tm', st.pending[qn], st.timers[qn], limit);
    hide Ordered, TimerOk;
    forall i | 0 <= i < |s + [p]|
      ensures (s + [p])[i] in tm' && Backed(History(st.trace + [ev], (s + [p])[i]), delay, qn + 1, tm'[(s + [p])[i]])
    {
      assert i < |s| ==> s[i] in st.tm && (s + [p])[i] == s[i];
    }
  }

  lemma SentIsBacked<T>(trace: seq<Event<T>>, p: T, delay: nat -> nat, qn: nat, t: int)
    requires Backed(History(trace, p), delay, qn, t)
    ensures Backed(History(trace + [Sent(p, qn, t)], p), delay, qn + 1, t + delay(qn))
  {
    HistorySnoc(trace, Sent(p, qn, t), p);
  }

  lemma AppendGood<T>(st: Sched<T>, delay: nat -> nat, qn: nat, p: T)
    requires Good(st, delay) && qn < |st.q| && p !in st.tm
    requires Backed(History(st.trace, p), delay, qn, st.clock)
    ensures Good(Append(st, delay, qn, p), delay)
  {
    hide QueueGood, Honest, History, Backed;
    HonestSnoc(st.trace, Sent(p, qn, st.clock), delay, |st.q|);
    forall k | 0 <= k < |st.q|
      ensures QueueGood(Append(st, delay, qn, p), delay, k)
    {
      if k == qn { AppendHere(st, delay, qn, p); } else { AppendElsewhere(st, delay, qn, p, k); }
    }
  }

  lemma FollowedSnoc<T>(s: seq<T>, tm: map<T, int>, trace: seq<Event<T>>, ev: Event<T>, delay: nat -> nat, k: nat)
    requires Followed(s, tm, trace, delay, k) && ev.e !in tm
    ensures Followed(s, tm, trace + [ev], delay, k)
  {
  }

  lemma UnlinkGood<T>(st: Sched<T>, delay: nat -> nat, qn: nat, i: nat)
    requires Good(st, delay) && qn < |st.q| && i < |st.q[qn]| && Separate(st.q)
    ensures Good(Unlink(st, qn, i), delay)
  {
    hide History, Backed, Honest;
    var st', p := Unlink(st, qn, i), st.q[qn][i];
    forall k | 0 <= k < |st'.q|
      ensures QueueGood(st', delay, k)
    {
      assert QueueGood(st, delay, k);
      assert forall j :: 0 <= j < |st'.q[k]| ==>
        st'.q[k][j] == st.q[k][if k == qn && j >= i then j + 1 else j] && st'.q[k][j] != p;
    }
  }

  /** An event about an entry that is in no queue. */
  lemma NoteGood<T>(st: Sched<T>, delay: nat -> nat, ev: Event<T>)
    requires Good(st, delay) && ev.e !in st.tm
    requires ev.TimedOut? ==> Backed(History(st.trace, ev.e), delay, |st.q|, ev.t)
    ensures Good(Note(st, ev), delay)
  {
    HonestSnoc(st.trace, ev, delay, |st.q|);
    forall k | 0 <= k < |st.q|
      ensures QueueGood(Note(st, ev), delay, k)
    {
      assert QueueGood(st, delay, k);
      FollowedSnoc(st.q[k], st.tm, st.trace, ev, delay, k);
    }
  }

  // ---------------------------------------------------------------- running entries are queued

  /** Every entry that is running is in a queue, except perhaps those of loose. */
  ghost predicate KeptBut<T>(st: Sched<T>, loose: set<T>) {
    forall j :: 0 <= j < |st.trace| && History(st.trace, st.trace[j].e).Running? ==> st.trace[j].e in st.tm || st.trace[j].e in loose
  }

  lemma {:induction false} RunningWasNoted<T>(trace: seq<Event<T>>, e: T)
    requires History(trace, e).Running?
    ensures exists j :: 0 <= j < |trace| && trace[j].e == e
  {
    if trace[|trace| - 1].e != e {
      var front := trace[..|trace| - 1];
      RunningWasNoted(front, e);
      var j :| 0 <= j < |front| && front[j].e == e;
      assert trace[j].e == e;
    }
  }

  lemma KeptTick<T>(st: Sched<T>, st': Sched<T>, loose: set<T>)
    requires KeptBut(st, loose) && st'.trace == st.trace && st'.tm == st.tm
    ensures KeptBut(st', loose)
  {
  }

  /** What is neither queued nor loose is not running. */
  lemma KeptMeans<T>(st: Sched<T>, loose: set<T>, e: T)
    requires KeptBut(st, loose) && e !in st.tm && e !in loose
    ensures !History(st.trace, e).Running?
  {
    if History(st.trace, e).Running? {
      RunningWasNoted(st.trace, e);
    }
  }

  /** One more event about p, after which p is queued or not running. */
  lemma KeptNote<T>(st: Sched<T>, st': Sched<T>, p: T, ev: Event<T>)
    requires KeptBut(st, {p}) && ev.e == p && st'.trace == st.trace + [ev]
    requires forall e :: e in st.tm && e != p ==> e in st'.tm
    requires p in st'.tm || !History(st'.trace, p).Running?
    ensures KeptBut(st', {})
  {
  }

  /** What insert needs to find the head of its queue */
  ghost predicate Insertable<T>(st: Sched<T>, qn: nat) {
    && qn < |st.q| == |st.pending| == |st.timers|
    && forall k :: 0 <= k < |st.q| && st.q[k] != [] ==> st.q[k][0] in st.tm
  }

  /** insert, as a whole: time now is read, or the time of the last reading is used. */
  ghost function Insert<T>(st: Sched<T>, delay: nat -> nat, qn: nat, p: T, now: int, isNew: bool): (st': Sched<T>)
    requires Insertable(st, qn)
  {
    var st1 := Tick(st, now);
    var st2 := if isNew then Note(st1, Started(p, now)) else st1;
    Schedule(Append(st2, delay, qn, p), qn)
  }

  /** insert wakes its own queue and leaves the others as they are. */
  lemma InsertAwake<T>(st: Sched<T>, delay: nat -> nat, qn: nat, p: T, now: int, isNew: bool, k: int)
    requires Good(st, delay) && qn < |st.q| && AwakeBut(st, k)
    requires forall k :: 0 <= k < |st.q| && st.q[k] != [] ==> st.q[k][0] in st.tm
    ensures AwakeBut(Insert(st, delay, qn, p, now, isNew), k)
  {
  }

  lemma GoodQueue<T>(st: Sched<T>, delay: nat -> nat, k: nat)
    requires Good(st, delay) && k < |st.q|
    ensures |st.pending| == |st.timers| == |st.q| && QueueGood(st, delay, k)
  {
  }

  lemma HeadBacked<T>(st: Sched<T>, delay: nat -> nat, qn: nat, t: int)
    requires Good(st, delay) && qn < |st.q| && st.q[qn] != [] && st.q[qn][0] in st.tm && st.tm[st.q[qn][0]] <= t
    ensures Backed(History(st.trace, st.q[qn][0]), delay, qn + 1, t)
  {
    assert QueueGood(st, delay, qn);
  }

  lemma HeadsQueued<T>(st: Sched<T>, delay: nat -> nat)
    requires Good(st, delay)
    ensures forall k :: 0 <= k < |st.q| && st.q[k] != [] ==> st.q[k][0] in st.tm
  {
    forall k | 0 <= k < |st.q| && st.q[k] != []
      ensures st.q[k][0] in st.tm
    {
      assert QueueGood(st, delay, k);
    }
  }

  lemma InsertGood<T>(st: Sched<T>, delay: nat -> nat, qn: nat, p: T, now: int, isNew: bool)
    requires Good(st, delay) && qn < |st.q| && p !in st.tm && st.clock <= now
    requires if isNew then qn == 0 else Backed(History(st.trace, p), delay, qn, now)
    requires forall k :: 0 <= k < |st.q| && st.q[k] != [] ==> st.q[k][0] in st.tm
    ensures Good(Insert(st, delay, qn, p, now, isNew), delay)
  {
    var st1 := Tick(st, now);
    TickGood(st, delay, now);
    var st2 := if isNew then Note(st1, Started(p, now)) else st1;
    if isNew {
      NoteGood(st1, delay, Started(p, now));
      HistorySnoc(st1.trace, Started(p, now), p);
    }
    AppendGood(st2, delay, qn, p);
    ScheduleGood(Append(st2, delay, qn, p), delay, qn);
  }

  lemma InsertKept<T>(st: Sched<T>, delay: nat -> nat, qn: nat, p: T, now: int, isNew: bool)
    requires |st.q| == |st.pending| == |st.timers| && qn < |st.q| && KeptBut(st, {p})
    requires forall k :: 0 <= k < |st.q| && st.q[k] != [] ==> st.q[k][0] in st.tm
    ensures KeptBut(Insert(st, delay, qn, p, now, isNew), {})
  {
    var st1 := Tick(st, now);
    var st2 := if isNew then Note(st1, Started(p, now)) else st1;
    if isNew {
      forall j | 0 <= j < |st2.trace| && History(st2.trace, st2.trace[j].e).Running?
        ensures st2.trace[j].e in st2.tm || st2.trace[j].e == p
      {
        HistorySnoc(st1.trace, Started(p, now), st2.trace[j].e);
        assert st2.trace[j].e != p ==> j < |st1.trace| && st1.trace[j].e == st2.trace[j].e;
      }
    }
    KeptNote(st2, Append(st2, delay, qn, p), p, Sent(p, qn, now));
  }

  lemma UnlinkKept<T>(st: Sched<T>, qn: nat, i: nat)
    requires qn < |st.q| && i < |st.q[qn]| && KeptBut(st, {})
    ensures KeptBut(Unlink(st, qn, i), {st.q[qn][i]})
  {
  }

  /** The timer of queue qn goes off at time t. */
  ghost function Fire<T>(st: Sched<T>, qn: nat, t: int): Sched<T>
    requires qn < |st.pending| == |st.timers|
  {
    st.(clock := t, timers := st.timers[qn := []], pending := st.pending[qn := false])
  }

  lemma FireGood<T>(st: Sched<T>, delay: nat -> nat, qn: nat, t: int)
    requires Good(st, delay) && qn < |st.q| == |st.pending| == |st.timers| && Awake(st) && st.clock <= t
    ensures Good(Fire(st, qn, t), delay) && AwakeBut(Fire(st, qn, t), qn)
  {
    var st' := Fire(st, qn, t);
    forall k | 0 <= k < |st'.q|
      ensures QueueGood(st', delay, k)
    {
      assert QueueGood(st, delay, k);
    }
  }

  // ---------------------------------------------------------------- how soon an entry times out

  /** A delay is the full product exactly if that fits 32 bits, and otherwise less. */
  lemma ShiftedAtMost(minto: nat, k: nat)
    ensures Shifted(minto, k) <= minto * Pow2(k)
    ensures Shifted(minto, k) == minto * Pow2(k) <==> minto * Pow2(k) < U_INT_SIZE
  {
    hide Pow2;
  }

  lemma LessOne(a: nat, b: nat)
    ensures a * (b - 1) == a * b - a
  {
  }

  /** The bound of one more delay */
  lemma BoundNext(minto: nat, n: nat)
    ensures minto * (Pow2(n + 1) - 1) == minto * (Pow2(n) - 1) + minto * Pow2(n)
  {
    LessOne(minto, Pow2(n + 1));
    LessOne(minto, Pow2(n));
    TwiceProduct(minto, Pow2(n));
  }

  lemma {:induction false} ProductGrows(minto: nat, k: nat, n: nat)
    requires k <= n
    ensures minto * Pow2(k) <= minto * Pow2(n)
  {
    if k < n {
      ProductGrows(minto, k, n - 1);
      TwiceProduct(minto, Pow2(n - 1));
    }
  }

  ghost predicate Shifts(delay: nat -> nat, minto: nat, n: nat) {
    forall k :: 0 <= k < n ==> delay(k) == Shifted(minto, k)
  }

  /** The first n delays together are minto * (2^n - 1) exactly if the last of them is not cut to 32 bits, and otherwise less. */
  lemma {:induction false} TotalShiftedIff(delay: nat -> nat, minto: nat, n: nat)
    requires Shifts(delay, minto, n) && n > 0
    ensures Total(delay, n) <= minto * (Pow2(n) - 1)
    ensures Total(delay, n) == minto * (Pow2(n) - 1) <==> minto * Pow2(n - 1) < U_INT_SIZE
  {
    ShiftedAtMost(minto, n - 1);
    BoundNext(minto, n - 1);
    if n > 1 {
      TotalShiftedIff(delay, minto, n - 1);
      ProductGrows(minto, n - 2, n - 1);
    }
    hide Pow2, Shifted;
  }

  /** Two sends from 2^31 seconds: the second delay is cut to zero, and the timeout comes after a third of the time. */
  lemma CutDelay()
    ensures Shifted(0x8000_0000, 1) == 0
    ensures forall delay :: Shifts(delay, 0x8000_0000, 2) ==> Total(delay, 2) == 0x8000_0000 < 0x8000_0000 * (Pow2(2) - 1)
  {
    assert Pow2(1) == 2 && Pow2(2) == 4;
    forall delay | Shifts(delay, 0x8000_0000, 2) ensures Total(delay, 2) == 0x8000_0000 {
      assert delay(0) == Shifted(0x8000_0000, 0) && delay(1) == Shifted(0x8000_0000, 1);
      assert Total(delay, 1) == delay(0);
    }
  }

  /**
   For an entry that was started and not removed since, xmit has been called with 0, 1, ...,
   maxsend - 1 in that order before its first timeout, which comes no earlier than its start plus
   all the delays: minto * (2^maxsend - 1), exactly if the last delay is not cut to 32 bits.
   */
  lemma FirstTimeout<T>(st: Sched<T>, delay: nat -> nat, minto: nat, j: nat)
    requires Good(st, delay) && j < |st.trace| && st.trace[j].TimedOut? && History(st.trace[..j], st.trace[j].e).Running?
    requires Shifts(delay, minto, |st.q|)
    ensures
      var run, n := History(st.trace[..j], st.trace[j].e), |st.q|;
      && run.sent == Upto(n) && st.trace[j].t >= run.start + Total(delay, n)
      && (Total(delay, n) == minto * (Pow2(n) - 1) <==> minto * Pow2(n - 1) < U_INT_SIZE)
  {
    hide Pow2, Total, Shifts;
    assert HonestAt(st.trace, delay, |st.q|, j);
    TotalShiftedIff(delay, minto, |st.q|);
  }
}
