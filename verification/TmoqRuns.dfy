/**
 Runs of tmoq that show its bounds to be exact: one in which an entry times out as early as it
 can, and one in which a timer callback never returns.
 */
module TmoqRuns {
  import opened Backoff
  import opened Powers
  import opened Runq
  import opened Sequences
  import opened Tmoq

  /** p alone is queued, in queue k, where it has come as soon as the delays before that allow. */
  ghost predicate Solo<T>(st: Sched<T>, delay: nat -> nat, p: T, k: nat, start: int) {
    && k < |st.q| == |st.pending| == |st.timers|
    && (forall j :: 0 <= j < |st.q| ==> st.q[j] == if j == k then [p] else [])
    && (forall j :: 0 <= j < |st.q| ==> st.pending[j] == (j == k))
    && p in st.tm && st.tm[p] == start + Total(delay, k + 1)
    && st.clock == start + Total(delay, k) && st.timers[k] == [st.tm[p]]
    && History(st.trace, p) == Running(start, Upto(k + 1))
  }

  lemma {:induction false} RoundsStop<T>(st: Sched<T>, delay: nat -> nat, qn: nat, now: int, env: nat -> Reading, n: nat)
    requires Sound(st, delay) && qn < |st.q| && Clocked(st, qn, now) && Forward(env, st.clock) && n >= 1
    requires !HeadDue(Rounds(st, delay, qn, now, env, 1), qn, now)
    ensures Rounds(st, delay, qn, now, env, n) == Rounds(st, delay, qn, now, env, 1)
  {
    hide Sound, HeadDue, Round, Rounds;
    if n > 1 {
      RoundsStop(st, delay, qn, now, env, n - 1);
      RoundsNext(st, delay, qn, now, env, n - 1);
    }
  }

  /** The callback for p's timer, on time, with a timeout that does nothing */
  lemma SoloCalled<T>(st: Sched<T>, delay: nat -> nat, p: T, k: nat, start: int, env: nat -> Reading, rounds: nat)
    requires Solo(st, delay, p, k, start) && start > 0
    requires var now := st.tm[p];
             && Fireable(st, delay, k, now) && Forward(env, now) && !env(0).keep
             && !HeadDue(Rounds(Fire(st, k, now), delay, k, now, env, rounds), k, now)
    ensures var now, st' := st.tm[p], Called(st, delay, k, st.tm[p], env, rounds);
            && (k + 1 < |st.q| ==> Solo(st', delay, p, k + 1, start))
            && (k + 1 == |st.q| ==> st'.trace == st.trace + [TimedOut(p, now)])
            && |st'.q| == |st.q|
  {
    var now := st.tm[p];
    var st1 := Fire(st, k, now);
    assert HeadDue(st1, k, now);
    RoundsNext(st1, delay, k, now, env, 0);
    var st2 := Round(st1, delay, k, now, env(0));
    SoloRound(st, delay, p, k, start, env(0));
    hide Good, Separate;
    RoundsStop(st1, delay, k, now, env, rounds);
  }

  lemma SoloRound<T>(st: Sched<T>, delay: nat -> nat, p: T, k: nat, start: int, r: Reading)
    requires Solo(st, delay, p, k, start) && start > 0 && !r.keep && Fireable(st, delay, k, st.tm[p])
    ensures var now := st.tm[p];
            var st2 := Round(Fire(st, k, now), delay, k, now, r);
            && |st2.q| == |st.q| && st2.q[k] == []
            && (k + 1 < |st.q| ==> Solo(st2, delay, p, k + 1, start))
            && (k + 1 == |st.q| ==> st2.trace == st.trace + [TimedOut(p, now)])
  {
    hide Good, Separate;
    var now := st.tm[p];
    var st1 := Fire(st, k, now);
    UnlinkSound(st1, delay, k);
    if k + 1 < |st.q| {
      HistorySnoc(st.trace, Sent(p, k + 1, now), p);
      assert Upto(k + 2) == Upto(k + 1) + [k + 1];
      GoodQueue(st1, delay, k + 1);
    }
  }

  lemma SoloStart<T>(st: Sched<T>, delay: nat -> nat, p: T, start: int)
    requires Good(st, delay) && Insertable(st, 0) && !History(st.trace, p).Running?
    requires (forall j :: 0 <= j < |st.q| ==> st.q[j] == []) && (forall j :: 0 <= j < |st.q| ==> !st.pending[j])
    ensures Solo(Backoff.Insert(st, delay, 0, p, start, true), delay, p, 0, start)
  {
    hide Good;
    GoodQueue(st, delay, 0);
    HistorySnoc(st.trace, Started(p, start), p);
    HistorySnoc(st.trace + [Started(p, start)], Sent(p, 0, start), p);
    assert Upto(1) == [0] && Total(delay, 1) == delay(0);
  }

  /**
   For every minto and maxsend there is a run in which the first timeout comes exactly at the start
   plus all the delays, so that FirstTimeout cannot be improved: where a delay is cut to 32 bits, that
   is before minto * (2^maxsend - 1) has passed.
   */
  method EarliestTimeout(minto: nat, maxsend: nat, start: int) returns (t: Tmoq, p: Entry)
    requires maxsend > 0 && start > 0
    ensures t.Ready() && t.maxsend == maxsend && Shifts(t.delay, minto, maxsend)
    ensures var trace := t.st.trace;
            && |trace| > 0 && trace[|trace| - 1] == TimedOut(p, start + Total(t.delay, maxsend))
            && History(trace[..|trace| - 1], p) == Running(start, Upto(maxsend))
    ensures start + Total(t.delay, maxsend) < start + minto * (Pow2(maxsend) - 1) <==> minto * Pow2(maxsend - 1) >= U_INT_SIZE
  {
    hide Good, Queues, Deadlines, KeptBut, AwakeBut, Pow2, Solo, Shifts, Total;
    t, p := StartAlone(minto, maxsend, start);
    var k := 0;
    while k < maxsend
      invariant t.Ready() && t.maxsend == maxsend && k <= maxsend && t.linked <= {p} && fresh(t) && fresh(p)
      invariant Shifts(t.delay, minto, maxsend)
      invariant k < maxsend ==> Solo(t.st, t.delay, p, k, start)
      invariant k == maxsend ==> Finished(t.st.trace, p, start, maxsend, start + Total(t.delay, maxsend))
    {
      CallOnTime(t, p, k, start);
      k := k + 1;
    }
    TotalShiftedIff(t.delay, minto, maxsend);
  }

  /** A new queue, with an entry started in it */
  method StartAlone(minto: nat, maxsend: nat, start: int) returns (t: Tmoq, p: Entry)
    requires maxsend > 0
    ensures t.Ready() && t.maxsend == maxsend && t.linked == {p} && fresh(t) && fresh(p) && Shifts(t.delay, minto, maxsend)
    ensures Solo(t.st, t.delay, p, 0, start)
  {
    hide Good, Queues, Deadlines, KeptBut, AwakeBut, Solo, Shifted, Backoff.Insert;
    t := new Tmoq(minto, maxsend, start);
    p := new Entry();
    ghost var st0 := t.st;
    HeadsQueued(st0, t.delay);
    GoodQueue(st0, t.delay, 0);
    SoloStart(st0, t.delay, p, start);
    t.Start(p, start);
  }

  /** The last event is the first timeout of p, which was started at start and sent n times. */
  ghost predicate Finished<T>(trace: seq<Event<T>>, p: T, start: int, n: nat, end: int) {
    && |trace| > 0 && trace[|trace| - 1] == TimedOut(p, end)
    && History(trace[..|trace| - 1], p) == Running(start, Upto(n))
  }

  lemma SoloFacts<T>(st: Sched<T>, delay: nat -> nat, p: T, k: nat, start: int, env: nat -> Reading)
    requires Solo(st, delay, p, k, start)
    ensures k < |st.q| == |st.timers| && p in st.tm && st.tm[p] == start + Total(delay, k + 1)
    ensures st.timers[k] == [st.tm[p]] && st.clock <= st.tm[p]
    ensures !env(0).keep ==> WillEnd(Tick(st, st.tm[p]), delay, k, st.tm[p], env)
    ensures History(st.trace, p) == Running(start, Upto(k + 1))
  {
    assert !env(0).keep ==> Declined(env, 1) == 1;
  }

  /** The event loop calls tcb for queue k at the time of p's deadline, and timeout does nothing. */
  method CallOnTime(t: Tmoq, p: Entry, k: nat, ghost start: int)
    requires t.Ready() && Solo(t.st, t.delay, p, k, start) && start > 0
    modifies t`queue, t`pending, t`timers, t`clock, t`st, t`linked, t.linked
    ensures t.Ready() && t.linked <= old(t.linked)
    ensures k + 1 < t.maxsend ==> Solo(t.st, t.delay, p, k + 1, start)
    ensures k + 1 == t.maxsend ==> Finished(t.st.trace, p, start, k + 1, start + Total(t.delay, k + 1))
  {
    hide Good, Queues, KeptBut, Awake, Solo, Rounds, Total, WillEnd;
    var now := p.tm;
    var env := (_: nat) => Reading(false, now);
    ghost var st := t.st;
    SoloFacts(st, t.delay, p, k, start, env);
    var rounds := t.Tcb(k, now, env);
    SoloCalled(st, t.delay, p, k, start, env, rounds);
    assert (st.trace + [TimedOut(p, now)])[..|st.trace|] == st.trace;
  }

  /**
   With a last delay of zero, a timeout that keeps trying, and a clock that stands still, the callback
   never returns: an entry started at time 1 in a queue with minto == 0 and maxsend == 1.
   */
  method EndlessCallback() returns (t: Tmoq, p: Entry)
    ensures t.Ready() && t.maxsend == 1 && t.timers[0] == [1] && t.clock == 1
    ensures var env := (_: nat) => Reading(true, 1);
            && Fireable(t.st, t.delay, 0, 1) && Forward(env, 1)
            && forall n :: HeadDue(Rounds(Fire(t.st, 0, 1), t.delay, 0, 1, env, n), 0, 1)
  {
    hide Good, Queues, Deadlines, KeptBut, AwakeBut, Solo, Shifts, Rounds, HeadDue, Forward, Fireable;
    t, p := StartAlone(0, 1, 1);
    QueuesSeparate(t.st.q, t.queue, t.linked);
    SoloEndless(t.st, t.delay, p);
  }

  lemma SoloEndless<T>(st: Sched<T>, delay: nat -> nat, p: T)
    requires Good(st, delay) && Separate(st.q) && Awake(st) && Solo(st, delay, p, 0, 1) && |st.q| == 1 && Shifts(delay, 0, 1)
    ensures st.clock == 1 && st.timers[0] == [1]
    ensures var env := (_: nat) => Reading(true, 1);
            && Fireable(st, delay, 0, 1) && Forward(env, 1)
            && forall n :: HeadDue(Rounds(Fire(st, 0, 1), delay, 0, 1, env, n), 0, 1)
  {
    assert delay(0) == Shifted(0, 0) == 0 && Total(delay, 1) == 0;
    FireGood(st, delay, 0, 1);
    var env := (_: nat) => Reading(true, 1);
    var st1 := Fire(st, 0, 1);
    forall n ensures Declined(env, n) == 0 { NeverDeclines(env, n); }
    hide Good, Separate, Rounds, Solo;
    RunqEndsIff(st1, delay, 0, 1, env);
  }

  lemma {:induction false} NeverDeclines(env: nat -> Reading, n: nat)
    requires forall i :: env(i).keep
    ensures Declined(env, n) == 0
  {
    if n > 0 { NeverDeclines(env, n - 1); }
  }
}
