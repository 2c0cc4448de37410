/**
 The loop of runq over a whole call: what each round does to the scheduler, for any readings of
 a clock that does not go back and any decisions of timeout (), and when the loop ends.
 */
module Runq {
  import opened Backoff
  import opened Sequences

  /** What a round meets: whether timeout () keeps trying, and what time (NULL) says if it is asked. */
  datatype Reading = Reading(keep: bool, time: int)

  ghost predicate Sound<T>(st: Sched<T>, delay: nat -> nat) {
    Good(st, delay) && Separate(st.q)
  }

  /** The loop's condition: the queue has a head, and it is due. */
  ghost predicate HeadDue<T>(st: Sched<T>, qn: nat, now: int) {
    qn < |st.q| && st.q[qn] != [] && st.q[qn][0] in st.tm && st.tm[st.q[qn][0]] <= now
  }

  lemma UnlinkSound<T>(st: Sched<T>, delay: nat -> nat, qn: nat)
    requires Sound(st, delay) && qn < |st.q| && st.q[qn] != []
    ensures Sound(Unlink(st, qn, 0), delay)
    ensures var st1 := Unlink(st, qn, 0);
            && |st1.q| == |st1.pending| == |st1.timers| == |st.q| && st1.q[qn] == st.q[qn][1..]
            && (forall k :: 0 <= k < |st1.q| && st1.q[k] != [] ==> st1.q[k][0] in st1.tm)
            && (forall k, i :: 0 <= k < |st1.q| && 0 <= i < |st1.q[k]| ==> st1.q[k][i] != st.q[qn][0])
  {
    hide Good, Separate;
    var st1 := Unlink(st, qn, 0);
    UnlinkGood(st, delay, qn, 0);
    GoodQueue(st1, delay, qn);
    HeadsQueued(st1, delay);
    assert Without(st.q[qn], 0) == st.q[qn][1..];
    SeparateTail(st.q, qn);
  }

  lemma SeparateTail<T>(q: seq<seq<T>>, qn: nat)
    requires Separate(q) && qn < |q| && q[qn] != []
    ensures var q1 := q[qn := q[qn][1..]];
            Separate(q1) && forall k, i :: 0 <= k < |q1| && 0 <= i < |q1[k]| ==> q1[k][i] != q[qn][0]
  {
    var q1 := q[qn := q[qn][1..]];
    assert forall i :: 0 <= i < |q1[qn]| ==> q1[qn][i] == q[qn][i + 1];
  }

  /** One round: the head of queue qn goes on to the next queue, or times out and is perhaps queued again. */
  ghost function Round<T>(st: Sched<T>, delay: nat -> nat, qn: nat, now: int, r: Reading): Sched<T>
    requires Sound(st, delay) && qn < |st.q| && st.q[qn] != []
  {
    UnlinkSound(st, delay, qn);
    var p, st1 := st.q[qn][0], Unlink(st, qn, 0);
    if qn < |st.q| - 1 then Insert(st1, delay, qn + 1, p, if now != 0 then now else r.time, false)
    else
      var st2 := Note(st1, TimedOut(p, now));
      if r.keep then Insert(st2, delay, qn, p, r.time, false) else st2
  }

  /** The clock has not gone back, and is still at now unless the round reads it. */
  ghost predicate Clocked<T>(st: Sched<T>, qn: nat, now: int) {
    now <= st.clock && (qn < |st.q| - 1 && now != 0 ==> st.clock == now)
  }

  lemma SeparateMove<T>(q: seq<seq<T>>, qn: nat, p: T)
    requires Separate(q) && qn < |q| && forall k, i :: 0 <= k < |q| && 0 <= i < |q[k]| ==> q[k][i] != p
    ensures Separate(q[qn := q[qn] + [p]])
  {
  }

  lemma RoundSound<T>(st: Sched<T>, delay: nat -> nat, qn: nat, now: int, r: Reading)
    requires Sound(st, delay) && HeadDue(st, qn, now) && Clocked(st, qn, now) && st.clock <= r.time
    ensures var st' := Round(st, delay, qn, now, r);
            Sound(st', delay) && |st'.q| == |st.q| && Clocked(st', qn, now) && st'.clock <= r.time
  {
    hide Good, Separate, Backed, History;
    UnlinkSound(st, delay, qn);
    HeadBacked(st, delay, qn, now);
    var p, st1, last := st.q[qn][0], Unlink(st, qn, 0), |st.q| - 1;
    if qn < last {
      var t := if now != 0 then now else r.time;
      BackedLater(History(st1.trace, p), delay, qn + 1, now, t);
      InsertGood(st1, delay, qn + 1, p, t, false);
      SeparateMove(st1.q, qn + 1, p);
    } else {
      var st2 := Note(st1, TimedOut(p, now));
      NoteGood(st1, delay, TimedOut(p, now));
      OverIsBacked(st1.trace, p, delay, qn, now, r.time);
      if r.keep {
        InsertGood(st2, delay, qn, p, r.time, false);
        SeparateMove(st1.q, qn, p);
      }
    }
  }

  lemma BackedLater(phase: Phase, delay: nat -> nat, n: nat, t: int, t': int)
    requires Backed(phase, delay, n, t) && t <= t'
    ensures Backed(phase, delay, n, t')
  {
  }

  /** After its timeout an entry is no longer counted as running. */
  lemma OverIsBacked<T>(trace: seq<Event<T>>, p: T, delay: nat -> nat, n: nat, now: int, t: int)
    ensures Backed(History(trace + [TimedOut(p, now)], p), delay, n, t)
  {
    HistorySnoc(trace, TimedOut(p, now), p);
  }

  // ---------------------------------------------------------------- counting what is due

  /** How many entries of s are due */
  ghost function Due<T>(s: seq<T>, tm: map<T, int>, now: int): nat {
    if s == [] then 0 else (if s[0] in tm && tm[s[0]] <= now then 1 else 0) + Due(s[1..], tm, now)
  }

  lemma {:induction false} DueSame<T>(s: seq<T>, tm: map<T, int>, tm': map<T, int>, now: int)
    requires forall i :: 0 <= i < |s| ==> (s[i] in tm <==> s[i] in tm') && (s[i] in tm ==> tm[s[i]] == tm'[s[i]])
    ensures Due(s, tm, now) == Due(s, tm', now)
  {
    if s != [] { DueSame(s[1..], tm, tm', now); }
  }

  lemma {:induction false} DueSnoc<T>(s: seq<T>, p: T, tm: map<T, int>, now: int)
    ensures Due(s + [p], tm, now) == Due(s, tm, now) + if p in tm && tm[p] <= now then 1 else 0
  {
    if s == [] {
      assert Due([p][1..], tm, now) == 0;
    } else {
      DueSnoc(s[1..], p, tm, now);
      assert (s + [p])[1..] == s[1..] + [p];
    }
  }

  /** In order of deadlines, nothing is due unless the head is. */
  lemma {:induction false} DueHead<T>(s: seq<T>, tm: map<T, int>, limit: int, now: int)
    requires Ordered(s, tm, limit)
    ensures Due(s, tm, now) <= |s|
    ensures Due(s, tm, now) > 0 <==> s != [] && tm[s[0]] <= now
    ensures limit <= now ==> Due(s, tm, now) == |s|
  {
    if s != [] {
      assert forall i :: 0 <= i < |s[1..]| ==> s[1..][i] == s[i + 1];
      DueHead(s[1..], tm, limit, now);
    }
  }

  /** The round leaves one entry fewer that is due. */
  ghost predicate Retires(delay: nat -> nat, qn: nat, last: nat, now: int, r: Reading) {
    qn < last || !r.keep || r.time + delay(last) > now
  }

  /** Whether the head is back at the end of its own queue after a round */
  ghost predicate Returns(qn: nat, last: nat, r: Reading) {
    qn == last && r.keep
  }

  lemma RoundEffect<T>(st: Sched<T>, delay: nat -> nat, qn: nat, now: int, r: Reading)
    requires Sound(st, delay) && qn < |st.q| && st.q[qn] != []
    ensures var st', p, last := Round(st, delay, qn, now, r), st.q[qn][0], |st.q| - 1;
            && |st'.q| == |st.q|
            && st'.q[qn] == st.q[qn][1..] + (if Returns(qn, last, r) then [p] else [])
            && (forall e :: e != p ==> (e in st'.tm <==> e in st.tm) && (e in st.tm ==> st'.tm[e] == st.tm[e]))
            && (Returns(qn, last, r) ==> p in st'.tm && st'.tm[p] == r.time + delay(last))
            && p !in st.q[qn][1..]
  {
    hide Good, Separate, Insert;
    UnlinkSound(st, delay, qn);
    var p, st1, last := st.q[qn][0], Unlink(st, qn, 0), |st.q| - 1;
    assert p !in st.q[qn][1..];
    if qn < last {
      InsertEffect(st1, delay, qn + 1, p, if now != 0 then now else r.time, false);
    } else if r.keep {
      InsertEffect(Note(st1, TimedOut(p, now)), delay, qn, p, r.time, false);
    }
  }

  lemma InsertEffect<T>(st: Sched<T>, delay: nat -> nat, qn: nat, p: T, now: int, isNew: bool)
    requires qn < |st.q| == |st.pending| == |st.timers|
    requires forall k :: 0 <= k < |st.q| && st.q[k] != [] ==> st.q[k][0] in st.tm
    ensures var st' := Insert(st, delay, qn, p, now, isNew);
            st'.q == st.q[qn := st.q[qn] + [p]] && st'.tm == st.tm[p := now + delay(qn)] && st'.clock == now
  {
  }

  lemma RoundDue<T>(st: Sched<T>, delay: nat -> nat, qn: nat, now: int, r: Reading)
    requires Sound(st, delay) && HeadDue(st, qn, now)
    ensures var st' := Round(st, delay, qn, now, r);
            && qn < |st'.q|
            && Due(st'.q[qn], st'.tm, now) == Due(st.q[qn], st.tm, now) - if Retires(delay, qn, |st.q| - 1, now, r) then 1 else 0
  {
    hide Good, Due, Sound, Round;
    RoundEffect(st, delay, qn, now, r);
    var p, rest, st' := st.q[qn][0], st.q[qn][1..], Round(st, delay, qn, now, r);
    DueTail(st.q[qn], st.tm, now);
    assert forall i :: 0 <= i < |rest| ==> rest[i] in rest;
    DueSame(rest, st.tm, st'.tm, now);
    DueSnoc(rest, p, st'.tm, now);
    assert rest + [] == rest;
  }

  lemma DueTail<T>(s: seq<T>, tm: map<T, int>, now: int)
    requires s != []
    ensures Due(s, tm, now) == (if s[0] in tm && tm[s[0]] <= now then 1 else 0) + Due(s[1..], tm, now)
  {
  }

  // ---------------------------------------------------------------- the loop

  /** The readings are those of a clock that does not go back. */
  ghost predicate Forward(env: nat -> Reading, from: int) {
    from <= env(0).time && forall i, j :: 0 <= i <= j ==> env(i).time <= env(j).time
  }

  /** The scheduler after n rounds of the loop, or fewer if it has ended before that */
  ghost function Rounds<T>(st: Sched<T>, delay: nat -> nat, qn: nat, now: int, env: nat -> Reading, n: nat): (st': Sched<T>)
    requires Sound(st, delay) && qn < |st.q| && Clocked(st, qn, now) && Forward(env, st.clock)
    ensures Sound(st', delay) && |st'.q| == |st.q| && Clocked(st', qn, now) && st'.clock <= env(n).time
  {
    if n == 0 then st else
      var st1 := Rounds(st, delay, qn, now, env, n - 1);
      assert env(n - 1).time <= env(n).time;
      if HeadDue(st1, qn, now) then
        RoundSound(st1, delay, qn, now, env(n - 1));
        Round(st1, delay, qn, now, env(n - 1))
      else st1
  }

  lemma RoundsNext<T>(st: Sched<T>, delay: nat -> nat, qn: nat, now: int, env: nat -> Reading, n: nat)
    requires Sound(st, delay) && qn < |st.q| && Clocked(st, qn, now) && Forward(env, st.clock)
    ensures Rounds(st, delay, qn, now, env, 0) == st
    ensures var st1 := Rounds(st, delay, qn, now, env, n);
            Rounds(st, delay, qn, now, env, n + 1) == if HeadDue(st1, qn, now) then Round(st1, delay, qn, now, env(n)) else st1
  {
  }

  /** How many of the first n rounds would retire an entry */
  ghost function Retired(delay: nat -> nat, qn: nat, last: nat, now: int, env: nat -> Reading, n: nat): nat {
    if n == 0 then 0 else Retired(delay, qn, last, now, env, n - 1) + if Retires(delay, qn, last, now, env(n - 1)) then 1 else 0
  }

  lemma {:induction false} RoundsDue<T>(st: Sched<T>, delay: nat -> nat, qn: nat, now: int, env: nat -> Reading, n: nat)
    requires Sound(st, delay) && qn < |st.q| && Clocked(st, qn, now) && Forward(env, st.clock)
    ensures var st', due, retired := Rounds(st, delay, qn, now, env, n), Due(st.q[qn], st.tm, now), Retired(delay, qn, |st.q| - 1, now, env, n);
            && (HeadDue(st', qn, now) <==> retired < due)
            && Due(st'.q[qn], st'.tm, now) == if retired < due then due - retired else 0
  {
    hide Good, Separate, Due, Retires, Rounds, Round;
    var st' := Rounds(st, delay, qn, now, env, n);
    RoundsNext(st, delay, qn, now, env, if n > 0 then n - 1 else 0);
    if n > 0 {
      RoundsDue(st, delay, qn, now, env, n - 1);
      var st1 := Rounds(st, delay, qn, now, env, n - 1);
      if HeadDue(st1, qn, now) { RoundDue(st1, delay, qn, now, env(n - 1)); }
    }
    HeadIsDue(st', delay, qn, now);
  }

  lemma HeadIsDue<T>(st: Sched<T>, delay: nat -> nat, qn: nat, now: int)
    requires Good(st, delay) && qn < |st.q|
    ensures HeadDue(st, qn, now) <==> Due(st.q[qn], st.tm, now) > 0
    ensures Due(st.q[qn], st.tm, now) <= |st.q[qn]|
    ensures st.clock + delay(qn) <= now ==> Due(st.q[qn], st.tm, now) == |st.q[qn]|
    ensures !HeadDue(st, qn, now) ==> forall i :: 0 <= i < |st.q[qn]| ==> st.q[qn][i] in st.tm && st.tm[st.q[qn][i]] > now
  {
    GoodQueue(st, delay, qn);
    DueHead(st.q[qn], st.tm, st.clock + delay(qn), now);
  }

  // ---------------------------------------------------------------- when the loop ends

  /** How many of the first n decisions are not to keep trying */
  ghost function Declined(env: nat -> Reading, n: nat): nat {
    if n == 0 then 0 else Declined(env, n - 1) + if env(n - 1).keep then 0 else 1
  }

  ghost predicate Past(env: nat -> Reading, now: int, i: nat) {
    env(i).time > now
  }

  /**
   The queue is not the last one, or its delay is not zero, or nothing is due, or the clock moves on
   while the loop runs, or timeout declines as often as there are entries in the queue.
   */
  ghost predicate WillEnd<T>(st: Sched<T>, delay: nat -> nat, qn: nat, now: int, env: nat -> Reading)
    requires qn < |st.q|
  {
    || qn < |st.q| - 1 || delay(qn) > 0 || !HeadDue(st, qn, now)
    || (exists i :: Past(env, now, i)) || (exists n :: Declined(env, n) >= |st.q[qn]|)
  }

  lemma {:induction false} RetiredAll(delay: nat -> nat, qn: nat, last: nat, now: int, env: nat -> Reading, i: nat, m: nat)
    requires forall j :: i <= j < i + m ==> Retires(delay, qn, last, now, env(j))
    ensures Retired(delay, qn, last, now, env, i + m) >= m
  {
    if m > 0 { RetiredAll(delay, qn, last, now, env, i, m - 1); }
  }

  lemma {:induction false} RetiredDeclined(delay: nat -> nat, qn: nat, last: nat, now: int, env: nat -> Reading, n: nat)
    ensures Retired(delay, qn, last, now, env, n) >= Declined(env, n)
    ensures qn >= last && delay(last) == 0 && (forall i :: 0 <= i < n ==> !Past(env, now, i)) ==>
              Retired(delay, qn, last, now, env, n) == Declined(env, n)
  {
    if n > 0 {
      RetiredDeclined(delay, qn, last, now, env, n - 1);
      assert !Past(env, now, n - 1) <==> env(n - 1).time <= now;
    }
  }

  lemma {:induction false} RetiredGrows(delay: nat -> nat, qn: nat, last: nat, now: int, env: nat -> Reading, m: nat, n: nat)
    requires m <= n
    ensures Retired(delay, qn, last, now, env, m) <= Retired(delay, qn, last, now, env, n)
  {
    if m < n { RetiredGrows(delay, qn, last, now, env, m, n - 1); }
  }

  /** A number of rounds that is enough */
  lemma EnoughRounds<T>(st: Sched<T>, delay: nat -> nat, qn: nat, now: int, env: nat -> Reading) returns (n: nat)
    requires Sound(st, delay) && qn < |st.q| && st.clock == now && Forward(env, now) && WillEnd(st, delay, qn, now, env)
    ensures Retired(delay, qn, |st.q| - 1, now, env, n) >= Due(st.q[qn], st.tm, now)
  {
    hide Good, Separate, Due;
    var last, due := |st.q| - 1, Due(st.q[qn], st.tm, now);
    HeadIsDue(st, delay, qn, now);
    assert forall i :: 0 <= i ==> now <= env(0).time <= env(i).time;
    if !HeadDue(st, qn, now) {
      n := 0;
    } else if qn < last || delay(qn) > 0 {
      n := due;
      RetiredAll(delay, qn, last, now, env, 0, due);
    } else if i :| Past(env, now, i) {
      n := i + due;
      RetiredAll(delay, qn, last, now, env, i, due);
    } else {
      n :| Declined(env, n) >= |st.q[qn]|;
      RetiredDeclined(delay, qn, last, now, env, n);
    }
  }

  /** As long as the head is due, the rounds have not been enough. */
  lemma StillDue<T>(st: Sched<T>, delay: nat -> nat, qn: nat, now: int, env: nat -> Reading, enough: nat, n: nat)
    requires Sound(st, delay) && qn < |st.q| && Clocked(st, qn, now) && Forward(env, st.clock)
    requires Retired(delay, qn, |st.q| - 1, now, env, enough) >= Due(st.q[qn], st.tm, now)
    requires HeadDue(Rounds(st, delay, qn, now, env, n), qn, now)
    ensures n < enough
  {
    hide Sound, Due, Retired, Rounds;
    RoundsDue(st, delay, qn, now, env, n);
    if enough <= n { RetiredGrows(delay, qn, |st.q| - 1, now, env, enough, n); }
  }

  /** Otherwise no number of rounds is enough. */
  lemma NeverEnough<T>(st: Sched<T>, delay: nat -> nat, qn: nat, now: int, env: nat -> Reading, n: nat)
    requires Sound(st, delay) && qn < |st.q| && st.clock == now && Forward(env, now) && !WillEnd(st, delay, qn, now, env)
    ensures Retired(delay, qn, |st.q| - 1, now, env, n) < Due(st.q[qn], st.tm, now)
  {
    hide Good, Separate, Due, Retired, Declined;
    HeadIsDue(st, delay, qn, now);
    RetiredDeclined(delay, qn, |st.q| - 1, now, env, n);
    assert Declined(env, n) < |st.q[qn]|;
  }

  /** runq comes to its end exactly if WillEnd, for all readings of the clock and all decisions of timeout. */
  lemma RunqEndsIff<T>(st: Sched<T>, delay: nat -> nat, qn: nat, now: int, env: nat -> Reading)
    requires Sound(st, delay) && qn < |st.q| && st.clock == now && Forward(env, now)
    ensures (exists n :: !HeadDue(Rounds(st, delay, qn, now, env, n), qn, now)) <==> WillEnd(st, delay, qn, now, env)
  {
    hide Sound, Due, HeadDue, WillEnd, Retired, Rounds;
    if WillEnd(st, delay, qn, now, env) {
      var n := EnoughRounds(st, delay, qn, now, env);
      RoundsDue(st, delay, qn, now, env, n);
    } else {
      forall n: nat ensures HeadDue(Rounds(st, delay, qn, now, env, n), qn, now) {
        NeverEnough(st, delay, qn, now, env, n);
        RoundsDue(st, delay, qn, now, env, n);
      }
    }
  }

  // ---------------------------------------------------------------- the timer callback

  ghost predicate Fireable<T>(st: Sched<T>, delay: nat -> nat, qn: nat, now: int) {
    qn < |st.q| == |st.pending| == |st.timers| && Sound(Fire(st, qn, now), delay)
  }

  /** tcb as a whole: the timer goes off, the loop runs, and the queue is scheduled again. */
  ghost function Called<T>(st: Sched<T>, delay: nat -> nat, qn: nat, now: int, env: nat -> Reading, rounds: nat): Sched<T>
    requires Fireable(st, delay, qn, now) && Forward(env, now)
  {
    var st1 := Rounds(Fire(st, qn, now), delay, qn, now, env, rounds);
    GoodQueue(st1, delay, qn);
    Schedule(st1, qn)
  }

  lemma AwakeNote<T>(st: Sched<T>, ev: Event<T>, qn: int)
    requires AwakeBut(st, qn)
    ensures AwakeBut(Note(st, ev), qn)
  {
  }

  lemma AwakeTick<T>(st: Sched<T>, now: int, qn: int)
    requires AwakeBut(st, qn)
    ensures AwakeBut(Tick(st, now), qn)
  {
  }
}
