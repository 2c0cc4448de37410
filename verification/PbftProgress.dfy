/**
 What each step of the protocol achieves, and that the protocol gets somewhere: in every view
 with a correct primary there is a run in which 2f+1 correct replicas prepare a digest and
 collect 2f+1 commits for it, although up to f others stay silent.
 */
module PbftProgress {
  import opened Sequences
  import opened FiniteSets
  import opened Certificates
  import opened Pbft

  // ---------------------------------------------------------------- what a step does

  ghost predicate OnlyAt(s: State, s': State, i: Id) {
    s'.replicas.Keys == s.replicas.Keys && forall j :: j in s.replicas && j != i ==> s'.replicas[j] == s.replicas[j]
  }

  /** The primary sends its pre-prepare and keeps it, with its requests, as its own. */
  lemma PrePrepareSent(c: Config, s: State, i: Id, n: Seqno, d: Digest)
    requires Enabled(c, s, SendPrePrepare(i, n, d))
    ensures var s', r := Apply(c, s, SendPrePrepare(i, n, d)), s.replicas[i];
            && OnlyAt(s, s', i) && s'.net == s.net + {PrePrepare(i, r.view, n, d)} && i == c.Primary(r.view)
            && var p' := s'.replicas[i].Prepares(c, n);
               p'.pp == Some(d) && p'.ppComplete && p'.primary && p'.pc == r.Prepares(c, n).pc
  {
  }

  /** A backup keeps the pre-prepare of its primary and the prepares it has; whether the requests are there is noted. */
  lemma PrePrepareReceived(c: Config, s: State, i: Id, m: Message, cached: bool)
    requires Enabled(c, s, ReceivePrePrepare(i, m, cached))
    ensures var s', p := Apply(c, s, ReceivePrePrepare(i, m, cached)), s.replicas[i].Prepares(c, m.seqno);
            && OnlyAt(s, s', i) && s'.net == s.net
            && var p' := s'.replicas[i].Prepares(c, m.seqno);
               p'.pp == Some(m.digest) && (p'.ppComplete <==> cached) && p'.pc == p.pc && p'.primary == p.primary
  {
  }

  /** A backup prepares the digest of the pre-prepare it has, in its log and to the others. */
  lemma PrepareSent(c: Config, s: State, i: Id, n: Seqno)
    requires Enabled(c, s, SendPrepare(i, n))
    ensures var s', r := Apply(c, s, SendPrepare(i, n)), s.replicas[i];
            var p, p' := r.Prepares(c, n), s'.replicas[i].Prepares(c, n);
            && p.pp.Some? && OnlyAt(s, s', i) && s'.net == s.net + {Prepare(i, r.view, n, p.pp.value)}
            && p'.pp == p.pp && p'.ppComplete == p.ppComplete
            && p'.pc.mine == p.pp && p'.pc.msgs == p.pc.msgs[i := p.pp.value]
  {
    AddExactly(s.replicas[i].Prepares(c, n).pc, i, s.replicas[i].Prepares(c, n).pp.value);
  }

  /** A received prepare is counted: exactly one sender more for its digest, unless its sender is there or it does not match. */
  lemma PrepareCounted(c: Config, s: State, i: Id, m: Message)
    requires Enabled(c, s, ReceivePrepare(i, m))
    ensures var s', p := Apply(c, s, ReceivePrepare(i, m)), s.replicas[i].Prepares(c, m.seqno);
            && OnlyAt(s, s', i) && s'.net == s.net && s'.replicas[i].view == s.replicas[i].view && s'.replicas[i].stable == s.replicas[i].stable
            && s'.replicas[i].clog == s.replicas[i].clog
            && var p' := s'.replicas[i].Prepares(c, m.seqno);
               && p'.pp == p.pp && p'.ppComplete == p.ppComplete && p'.primary == p.primary && p'.pc.mine == p.pc.mine
               && p'.pc.correct == p.pc.correct && p'.pc.complete == p.pc.complete
               && if m.id !in p.pc.msgs && (p.pc.c.None? || p.pc.c.value == m.digest)
                  then p'.pc.msgs == p.pc.msgs[m.id := m.digest] && |p'.pc.Senders(m.digest)| == |p.pc.Senders(m.digest)| + 1
                  else p'.pc == p.pc
  {
    AddExactly(s.replicas[i].Prepares(c, m.seqno).pc, m.id, m.digest);
  }

  /** A received commit is counted once for its sender; all commits for a view and number match. */
  lemma CommitCounted(c: Config, s: State, i: Id, m: Message)
    requires Enabled(c, s, ReceiveCommit(i, m))
    ensures var s', p := Apply(c, s, ReceiveCommit(i, m)), s.replicas[i].Commits(c, m.seqno);
            && OnlyAt(s, s', i) && s'.net == s.net && s'.replicas[i].view == s.replicas[i].view && s'.replicas[i].stable == s.replicas[i].stable
            && s'.replicas[i].plog == s.replicas[i].plog
            && var p' := s'.replicas[i].Commits(c, m.seqno);
               && p'.correct == p.correct && p'.complete == p.complete
               && p'.msgs == p.msgs[m.id := ()] && (m.id !in p.msgs ==> |p'.Senders(())| == |p.Senders(())| + 1)
  {
    var p := s.replicas[i].Commits(c, m.seqno);
    AddExactly(p, m.id, ());
    if p.c.Some? { OneValue(p.c.value); }
    if m.id in p.msgs {
      OneValue(p.msgs[m.id]);
      assert p.msgs[m.id := ()] == p.msgs;
    }
  }

  lemma OneValue(u: ())
    ensures u == ()
  {
    match u {
      case () =>
    }
  }

  /** A stale certificate that is not complete keeps the own message alone, and the pre-prepare only in its primary. */
  lemma Staled(c: Config, s: State, i: Id, n: Seqno)
    requires Enabled(c, s, MarkStale(i, n))
    ensures var s', r := Apply(c, s, MarkStale(i, n)), s.replicas[i];
            var p, p' := r.Prepares(c, n), s'.replicas[i].Prepares(c, n);
            && OnlyAt(s, s', i) && s'.net == s.net
            && if p.IsComplete() then p' == p else
                 && p'.pp == (if i == c.Primary(r.view) then p.pp else None)
                 && p'.pc.mine == p.pc.mine && p'.pc.msgs == (if p.pc.mine.Some? then map[i := p.pc.mine.value] else map[])
  {
  }

  /** A replica that changes its view is in the new one and has no certificate. */
  lemma ViewChanged(c: Config, s: State, i: Id, v: View, n: Seqno)
    requires Enabled(c, s, ChangeView(i, v))
    ensures var s' := Apply(c, s, ChangeView(i, v));
            && OnlyAt(s, s', i) && s'.net == s.net && s'.replicas[i].view == v && s'.replicas[i].stable == s.replicas[i].stable
            && n !in s'.replicas[i].plog && n !in s'.replicas[i].clog
  {
  }

  /** Truncating keeps the certificates above the new stable number, and no others. */
  lemma Truncated(c: Config, s: State, i: Id, n: Seqno, k: Seqno)
    requires Enabled(c, s, Truncate(i, n))
    ensures var s', r := Apply(c, s, Truncate(i, n)), s.replicas[i];
            var r' := s'.replicas[i];
            && OnlyAt(s, s', i) && s'.net == s.net && r'.view == r.view && r'.stable == n
            && (k > n ==> r'.Prepares(c, k) == r.Prepares(c, k) && r'.Commits(c, k) == r.Commits(c, k))
            && (k <= n ==> k !in r'.plog && k !in r'.clog)
  {
  }

  /**
   Prepared, in terms of what a replica holds: the pre-prepare with its requests, and prepares with its
   digest from 2f different replicas, or from one if f is zero.
   */
  lemma PreparedExactly(c: Config, s: State, i: Id, n: Seqno, backups: set<Id>)
    requires Inv(c, s) && c.Correct(i) && i in s.replicas
    requires var p := s.replicas[i].Prepares(c, n); p.pp.Some? ==> Carries(p.pc, p.pp.value, backups)
    ensures var p := s.replicas[i].Prepares(c, n);
            p.IsComplete() <==> p.pp.Some? && p.ppComplete && |backups| >= if c.f == 0 then 1 else 2 * c.f
  {
    var p := s.replicas[i].Prepares(c, n);
    PreparesSound(c, s, i, n);
    hide Inv;
    if p.pp.Some? { CompleteFor(p.pc, p.pp.value, backups); }
  }

  // ---------------------------------------------------------------- runs

  ghost predicate CanRun(c: Config, s: State, steps: seq<Step>)
    decreases |steps|
  {
    steps == [] || (Enabled(c, s, steps[0]) && CanRun(c, Apply(c, s, steps[0]), steps[1..]))
  }

  ghost function RunFrom(c: Config, s: State, steps: seq<Step>): State
    requires CanRun(c, s, steps)
    decreases |steps|
  {
    if steps == [] then s else RunFrom(c, Apply(c, s, steps[0]), steps[1..])
  }

  lemma {:induction false} RunOn(c: Config, s: State, a: seq<Step>, b: seq<Step>)
    requires CanRun(c, s, a) && CanRun(c, RunFrom(c, s, a), b)
    ensures CanRun(c, s, a + b) && RunFrom(c, s, a + b) == RunFrom(c, RunFrom(c, s, a), b)
    decreases |a|
  {
    hide Enabled, Apply;
    if a == [] {
      assert a + b == b;
    } else {
      RunOn(c, Apply(c, s, a[0]), a[1..], b);
      assert (a + b)[0] == a[0] && (a + b)[1..] == a[1..] + b;
    }
  }

  lemma RunStep(c: Config, s: State, t: Step)
    requires Enabled(c, s, t)
    ensures CanRun(c, s, [t]) && RunFrom(c, s, [t]) == Apply(c, s, t)
  {
    hide Enabled, Apply;
    assert [t][1..] == [];
  }

  lemma RunNone(c: Config, s: State)
    ensures CanRun(c, s, []) && RunFrom(c, s, []) == s
  {
  }

  /** The states on the way */
  lemma {:induction false} RunStates(c: Config, s: State, steps: seq<Step>) returns (run: seq<State>)
    requires CanRun(c, s, steps)
    ensures |run| == |steps| + 1 && run[0] == s && run[|steps|] == RunFrom(c, s, steps)
    ensures forall k :: 0 <= k < |steps| ==> Enabled(c, run[k], steps[k]) && run[k + 1] == Apply(c, run[k], steps[k])
    decreases |steps|
  {
    hide Enabled, Apply;
    if steps == [] {
      run := [s];
    } else {
      var rest := RunStates(c, Apply(c, s, steps[0]), steps[1..]);
      run := [s] + rest;
      forall k | 0 <= k < |steps| ensures Enabled(c, run[k], steps[k]) && run[k + 1] == Apply(c, run[k], steps[k]) {
        if k > 0 { assert run[k] == rest[k - 1] && run[k + 1] == rest[k] && steps[k] == steps[1..][k - 1]; }
      }
    }
  }

  // ---------------------------------------------------------------- a calm view

  /** A certificate for which only d has been heard */
  ghost predicate Only<V>(cert: Certificate<V>, d: V) {
    cert.Valid() && forall k :: k in cert.msgs ==> cert.msgs[k] == d
  }

  /** Replica i is in view v and has heard of d alone for n. */
  ghost predicate CalmAt(c: Config, r: Replica, i: Id, v: View, n: Seqno, d: Digest) {
    && r.view == v && r.stable < n
    && var p, q := r.Prepares(c, n), r.Commits(c, n);
       && (p.pp.Some? ==> p.pp.value == d)
       && Only(p.pc, d) && p.pc.correct == c.f + 1 && p.pc.complete == Threshold(c, 2 * c.f)
       && (if p.pc.mine.Some? then p.pc.mine.value == d && i in p.pc.msgs else i !in p.pc.msgs)
       && Only(q, ()) && q.correct == c.f + 1 && q.complete == 2 * c.f + 1
  }

  ghost predicate Calm(c: Config, s: State, v: View, n: Seqno, d: Digest) {
    s.replicas.Keys == c.Replicas() && forall i :: c.Correct(i) ==> CalmAt(c, s.replicas[i], i, v, n, d)
  }

  /** Nothing that r holds for n is missing from r'. */
  ghost predicate GrownAt(c: Config, r: Replica, r': Replica, n: Seqno) {
    var p, p' := r.Prepares(c, n), r'.Prepares(c, n);
    && (p.pp.Some? ==> p'.pp == p.pp && (p.ppComplete ==> p'.ppComplete))
    && (p.pc.mine.Some? ==> p'.pc.mine == p.pc.mine)
    && p.pc.msgs.Keys <= p'.pc.msgs.Keys && r.Commits(c, n).msgs.Keys <= r'.Commits(c, n).msgs.Keys
  }

  ghost predicate Grown(c: Config, s: State, s': State, n: Seqno) {
    && s.replicas.Keys == s'.replicas.Keys == c.Replicas() && s.net <= s'.net
    && forall i :: c.Correct(i) ==> GrownAt(c, s.replicas[i], s'.replicas[i], n)
  }

  lemma GrownOn(c: Config, s: State, s1: State, s2: State, n: Seqno)
    requires Grown(c, s, s1, n) && Grown(c, s1, s2, n)
    ensures Grown(c, s, s2, n)
  {
    hide GrownAt;
    forall i | c.Correct(i) ensures GrownAt(c, s.replicas[i], s2.replicas[i], n) {
      GrownTwice(c, s.replicas[i], s1.replicas[i], s2.replicas[i], n);
    }
  }

  lemma GrownTwice(c: Config, r: Replica, r1: Replica, r2: Replica, n: Seqno)
    requires GrownAt(c, r, r1, n) && GrownAt(c, r1, r2, n)
    ensures GrownAt(c, r, r2, n)
  {
  }

  lemma GrownSelf(c: Config, s: State, n: Seqno)
    requires s.replicas.Keys == c.Replicas()
    ensures Grown(c, s, s, n)
  {
  }

  /** A step of replica i alone */
  lemma CalmStep(c: Config, s: State, s': State, i: Id, v: View, n: Seqno, d: Digest)
    requires Calm(c, s, v, n, d) && c.Correct(i) && OnlyAt(s, s', i) && s.net <= s'.net
    requires CalmAt(c, s'.replicas[i], i, v, n, d) && GrownAt(c, s.replicas[i], s'.replicas[i], n)
    ensures Calm(c, s', v, n, d) && Grown(c, s, s', n)
  {
    hide CalmAt;
    forall j | c.Correct(j) ensures CalmAt(c, s'.replicas[j], j, v, n, d) && GrownAt(c, s.replicas[j], s'.replicas[j], n) {
      if j != i { assert s'.replicas[j] == s.replicas[j]; }
    }
  }

  /** A message for d is never refused for its value. */
  lemma OnlyAdd<V>(cert: Certificate<V>, k: Id, d: V)
    requires Only(cert, d)
    ensures cert.c.None? || cert.c.value == d
    ensures Only(cert.Add(k, d), d) && cert.Add(k, d).msgs == cert.msgs[k := d]
  {
    if cert.c.Some? {
      var who :| who in cert.Senders(cert.c.value);
    }
    AddValid(cert, k, d);
    AddExactly(cert, k, d);
    if k in cert.msgs { assert cert.msgs[k := d] == cert.msgs; }
  }

  /** Enough messages for d make it the correct value, and more make the certificate complete. */
  lemma OnlyComplete<V>(cert: Certificate<V>, d: V, who: set<Id>)
    requires Only(cert, d) && who <= cert.msgs.Keys && |who| >= cert.correct && |who| >= cert.complete
    ensures cert.c == Some(d) && cert.IsComplete()
  {
    assert who <= cert.Senders(d);
    SubsetSize(who, cert.Senders(d));
    OnlyAdd(cert, 0, d);
    var one :| one in who;
  }

  // ---------------------------------------------------------------- single steps in a calm view

  lemma DeliverPrepare(c: Config, s: State, i: Id, k: Id, v: View, n: Seqno, d: Digest)
    requires Calm(c, s, v, n, d) && c.Correct(i) && k < c.N() && k != c.Primary(v) && k != i && Prepare(k, v, n, d) in s.net
    ensures Enabled(c, s, ReceivePrepare(i, Prepare(k, v, n, d)))
    ensures var s' := Apply(c, s, ReceivePrepare(i, Prepare(k, v, n, d)));
            && Calm(c, s', v, n, d) && Grown(c, s, s', n) && k in s'.replicas[i].Prepares(c, n).pc.msgs
  {
    var m, r := Prepare(k, v, n, d), s.replicas[i];
    assert CalmAt(c, r, i, v, n, d);
    var s' := Apply(c, s, ReceivePrepare(i, m));
    OnlyAdd(r.Prepares(c, n).pc, k, d);
    PrepareCounted(c, s, i, m);
    hide Calm, Grown, Only;
    assert s'.replicas[i].Prepares(c, n).pc == r.Prepares(c, n).pc.Add(k, d);
    CalmStep(c, s, s', i, v, n, d);
  }

  lemma DeliverCommit(c: Config, s: State, i: Id, k: Id, v: View, n: Seqno, d: Digest)
    requires Calm(c, s, v, n, d) && c.Correct(i) && k < c.N() && Commit(k, v, n) in s.net
    ensures Enabled(c, s, ReceiveCommit(i, Commit(k, v, n)))
    ensures var s' := Apply(c, s, ReceiveCommit(i, Commit(k, v, n)));
            && Calm(c, s', v, n, d) && Grown(c, s, s', n) && k in s'.replicas[i].Commits(c, n).msgs
  {
    var m, r := Commit(k, v, n), s.replicas[i];
    assert CalmAt(c, r, i, v, n, d);
    var s' := Apply(c, s, ReceiveCommit(i, m));
    OnlyAdd(r.Commits(c, n), k, ());
    CommitCounted(c, s, i, m);
    hide Calm, Grown, Only;
    assert s'.replicas[i].Commits(c, n) == r.Commits(c, n).Add(k, ());
    CalmStep(c, s, s', i, v, n, d);
  }

  /** Replica i holds the pre-prepare with its requests and the prepares of the backups in b. */
  ghost predicate Heard(c: Config, s: State, i: Id, n: Seqno, d: Digest, b: set<Id>) {
    && i in s.replicas
    && var p := s.replicas[i].Prepares(c, n); p.pp == Some(d) && p.ppComplete && b <= p.pc.msgs.Keys
  }

  /** With a pre-prepare and 2f matching prepares from different backups, the digest is prepared. */
  lemma HeardPrepares(c: Config, s: State, i: Id, v: View, n: Seqno, d: Digest, b: set<Id>)
    requires Calm(c, s, v, n, d) && c.Correct(i) && c.f >= 1 && |b| == 2 * c.f && Heard(c, s, i, n, d, b)
    ensures HasPrepared(c, s, i, v, n, d)
  {
    assert CalmAt(c, s.replicas[i], i, v, n, d);
    OnlyComplete(s.replicas[i].Prepares(c, n).pc, d, b);
  }

  lemma CommitOne(c: Config, s: State, i: Id, v: View, n: Seqno, d: Digest)
    requires Calm(c, s, v, n, d) && c.Correct(i) && HasPrepared(c, s, i, v, n, d)
    ensures Enabled(c, s, SendCommit(i, n))
    ensures var s' := Apply(c, s, SendCommit(i, n));
            Calm(c, s', v, n, d) && Grown(c, s, s', n) && Commit(i, v, n) in s'.net
  {
    var s' := Apply(c, s, SendCommit(i, n));
    assert CalmAt(c, s.replicas[i], i, v, n, d);
    assert s'.replicas[i] == s.replicas[i];
    CalmStep(c, s, s', i, v, n, d);
  }

  /** Backup b has the pre-prepare and its requests, and has sent its prepare. */
  ghost predicate Voted(c: Config, s: State, b: Id, v: View, n: Seqno, d: Digest) {
    Heard(c, s, b, n, d, {b}) && Prepare(b, v, n, d) in s.net
  }

  lemma VotedStays(c: Config, s: State, s': State, b: Id, v: View, n: Seqno, d: Digest)
    requires Voted(c, s, b, v, n, d) && Grown(c, s, s', n) && c.Correct(b)
    ensures Voted(c, s', b, v, n, d)
  {
    assert GrownAt(c, s.replicas[b], s'.replicas[b], n);
  }

  lemma HeardStays(c: Config, s: State, s': State, i: Id, n: Seqno, d: Digest, b: set<Id>)
    requires Heard(c, s, i, n, d, b) && Grown(c, s, s', n) && c.Correct(i)
    ensures Heard(c, s', i, n, d, b)
  {
    assert GrownAt(c, s.replicas[i], s'.replicas[i], n);
  }

  /** Replica i has heard nothing for n. */
  ghost predicate Silent(c: Config, s: State, i: Id, n: Seqno) {
    i in s.replicas && s.replicas[i].Prepares(c, n) == NoPrepares(c)
  }

  lemma TakePrePrepare(c: Config, s: State, b: Id, v: View, n: Seqno, d: Digest)
    requires Calm(c, s, v, n, d) && c.Correct(b) && b != c.Primary(v) && Silent(c, s, b, n) && PrePrepare(c.Primary(v), v, n, d) in s.net
    ensures var t := ReceivePrePrepare(b, PrePrepare(c.Primary(v), v, n, d), false);
            && Enabled(c, s, t)
            && var s' := Apply(c, s, t);
               && Calm(c, s', v, n, d) && Grown(c, s, s', n) && OnlyAt(s, s', b) && s'.net == s.net
               && s'.replicas[b].Prepares(c, n) == NoPrepares(c).(pp := Some(d))
  {
    var t, r := ReceivePrePrepare(b, PrePrepare(c.Primary(v), v, n, d), false), s.replicas[b];
    assert CalmAt(c, r, b, v, n, d);
    var s' := Apply(c, s, t);
    CalmStep(c, s, s', b, v, n, d);
  }

  lemma TakeRequests(c: Config, s: State, b: Id, v: View, n: Seqno, d: Digest)
    requires Calm(c, s, v, n, d) && c.Correct(b) && s.replicas[b].Prepares(c, n) == NoPrepares(c).(pp := Some(d))
    ensures Enabled(c, s, CacheRequests(b, n))
    ensures var s' := Apply(c, s, CacheRequests(b, n));
            && Calm(c, s', v, n, d) && Grown(c, s, s', n) && OnlyAt(s, s', b) && s'.net == s.net
            && s'.replicas[b].Prepares(c, n) == NoPrepares(c).(pp := Some(d), ppComplete := true)
  {
    assert CalmAt(c, s.replicas[b], b, v, n, d);
    CalmStep(c, s, Apply(c, s, CacheRequests(b, n)), b, v, n, d);
  }

  lemma GivePrepare(c: Config, s: State, b: Id, v: View, n: Seqno, d: Digest)
    requires Calm(c, s, v, n, d) && c.Correct(b) && b != c.Primary(v)
    requires s.replicas[b].Prepares(c, n) == NoPrepares(c).(pp := Some(d), ppComplete := true)
    ensures Enabled(c, s, SendPrepare(b, n))
    ensures var s' := Apply(c, s, SendPrepare(b, n));
            Calm(c, s', v, n, d) && Grown(c, s, s', n) && OnlyAt(s, s', b) && Voted(c, s', b, v, n, d)
  {
    var p := s.replicas[b].Prepares(c, n);
    assert CalmAt(c, s.replicas[b], b, v, n, d);
    var s' := Apply(c, s, SendPrepare(b, n));
    OnlyAdd(p.pc, b, d);
    AddMineValid(p.pc, b, d);
    assert s'.replicas[b].Prepares(c, n).pc == p.pc.AddMine(b, d);
    hide Calm, Grown;
    CalmStep(c, s, s', b, v, n, d);
  }

  // ---------------------------------------------------------------- stages

  /** A way from s to a later calm state */
  ghost predicate Way(c: Config, s: State, steps: seq<Step>, v: View, n: Seqno, d: Digest) {
    CanRun(c, s, steps) && Calm(c, RunFrom(c, s, steps), v, n, d) && Grown(c, s, RunFrom(c, s, steps), n)
  }

  lemma WayNone(c: Config, s: State, v: View, n: Seqno, d: Digest)
    requires Calm(c, s, v, n, d)
    ensures Way(c, s, [], v, n, d) && RunFrom(c, s, []) == s
  {
    hide GrownAt, CalmAt;
    GrownSelf(c, s, n);
  }

  lemma WayStep(c: Config, s: State, t: Step, v: View, n: Seqno, d: Digest)
    requires Enabled(c, s, t) && Calm(c, Apply(c, s, t), v, n, d) && Grown(c, s, Apply(c, s, t), n)
    ensures Way(c, s, [t], v, n, d) && RunFrom(c, s, [t]) == Apply(c, s, t)
  {
    hide Enabled, Apply, Calm, Grown, CanRun, RunFrom;
    RunStep(c, s, t);
  }

  lemma WayOn(c: Config, s: State, a: seq<Step>, b: seq<Step>, v: View, n: Seqno, d: Digest)
    requires Way(c, s, a, v, n, d) && Way(c, RunFrom(c, s, a), b, v, n, d)
    ensures Way(c, s, a + b, v, n, d) && RunFrom(c, s, a + b) == RunFrom(c, RunFrom(c, s, a), b)
  {
    hide Calm, Grown, CanRun, RunFrom;
    RunOn(c, s, a, b);
    GrownOn(c, s, RunFrom(c, s, a), RunFrom(c, s, a + b), n);
  }

  /** One backup takes the pre-prepare and votes for it. */
  lemma VoteOne(c: Config, s: State, b: Id, v: View, n: Seqno, d: Digest) returns (steps: seq<Step>)
    requires Calm(c, s, v, n, d) && c.Correct(b) && b != c.Primary(v) && Silent(c, s, b, n) && PrePrepare(c.Primary(v), v, n, d) in s.net
    ensures Way(c, s, steps, v, n, d) && OnlyAt(s, RunFrom(c, s, steps), b) && Voted(c, RunFrom(c, s, steps), b, v, n, d)
  {
    hide Calm, Grown, Enabled, Apply, Way, RunFrom, CanRun;
    var t1, t2, t3 := ReceivePrePrepare(b, PrePrepare(c.Primary(v), v, n, d), false), CacheRequests(b, n), SendPrepare(b, n);
    TakePrePrepare(c, s, b, v, n, d);
    var s1 := Apply(c, s, t1);
    TakeRequests(c, s1, b, v, n, d);
    var s2 := Apply(c, s1, t2);
    GivePrepare(c, s2, b, v, n, d);
    WayStep(c, s, t1, v, n, d);
    WayStep(c, s1, t2, v, n, d);
    WayStep(c, s2, t3, v, n, d);
    WayOn(c, s, [t1], [t2], v, n, d);
    WayOn(c, s, [t1] + [t2], [t3], v, n, d);
    steps := [t1] + [t2] + [t3];
  }

  lemma {:induction false} VoteAll(c: Config, s: State, b: set<Id>, v: View, n: Seqno, d: Digest) returns (steps: seq<Step>)
    requires Calm(c, s, v, n, d) && PrePrepare(c.Primary(v), v, n, d) in s.net
    requires forall i :: i in b ==> c.Correct(i) && i != c.Primary(v) && Silent(c, s, i, n)
    ensures Way(c, s, steps, v, n, d) && forall i :: i in b ==> Voted(c, RunFrom(c, s, steps), i, v, n, d)
    decreases |b|
  {
    hide Calm, Way, RunFrom, Voted, Grown, CanRun;
    if b == {} {
      steps := [];
      WayNone(c, s, v, n, d);
    } else {
      var i :| i in b;
      var first := VoteOne(c, s, i, v, n, d);
      WayGrows(c, s, first, v, n, d);
      var s1 := RunFrom(c, s, first);
      var rest := VoteAll(c, s1, b - {i}, v, n, d);
      WayGrows(c, s1, rest, v, n, d);
      VotedStays(c, s1, RunFrom(c, s1, rest), i, v, n, d);
      WayOn(c, s, first, rest, v, n, d);
      steps := first + rest;
    }
  }

  lemma WayGrows(c: Config, s: State, steps: seq<Step>, v: View, n: Seqno, d: Digest)
    requires Way(c, s, steps, v, n, d)
    ensures CanRun(c, s, steps)
    ensures var s' := RunFrom(c, s, steps); Calm(c, s', v, n, d) && Grown(c, s, s', n) && s.net <= s'.net
  {
  }

  /** Replica i receives the prepares of the backups in b, its own being there. */
  lemma {:induction false} HearAll(c: Config, s: State, i: Id, b: set<Id>, v: View, n: Seqno, d: Digest) returns (steps: seq<Step>)
    requires Calm(c, s, v, n, d) && c.Correct(i) && Heard(c, s, i, n, d, b * {i})
    requires forall k :: k in b ==> k < c.N() && k != c.Primary(v) && Prepare(k, v, n, d) in s.net
    ensures Way(c, s, steps, v, n, d) && Heard(c, RunFrom(c, s, steps), i, n, d, b)
    decreases |b|
  {
    hide Calm, Way, RunFrom;
    if k :| k in b && k != i {
      var rest := b - {k};
      assert rest * {i} == b * {i};
      var steps1 := HearAll(c, s, i, rest, v, n, d);
      WayGrows(c, s, steps1, v, n, d);
      var s1 := RunFrom(c, s, steps1);
      var t := ReceivePrepare(i, Prepare(k, v, n, d));
      DeliverPrepare(c, s1, i, k, v, n, d);
      hide Enabled, Apply;
      WayStep(c, s1, t, v, n, d);
      HeardStays(c, s1, Apply(c, s1, t), i, n, d, rest);
      WayOn(c, s, steps1, [t], v, n, d);
      steps := steps1 + [t];
    } else {
      assert b * {i} == b;
      steps := [];
      WayNone(c, s, v, n, d);
    }
  }

  /** Every replica of a hears all the prepares of b, and so prepares. */
  lemma {:induction false} PrepareAll(c: Config, s: State, a: set<Id>, b: set<Id>, v: View, n: Seqno, d: Digest) returns (steps: seq<Step>)
    requires Calm(c, s, v, n, d) && forall i :: i in a ==> c.Correct(i) && Heard(c, s, i, n, d, b * {i})
    requires forall k :: k in b ==> k < c.N() && k != c.Primary(v) && Prepare(k, v, n, d) in s.net
    ensures Way(c, s, steps, v, n, d) && forall i :: i in a ==> Heard(c, RunFrom(c, s, steps), i, n, d, b)
    decreases |a|
  {
    hide Calm, Way, RunFrom, Heard;
    if a == {} {
      steps := [];
      WayNone(c, s, v, n, d);
    } else {
      var i :| i in a;
      var first := HearAll(c, s, i, b, v, n, d);
      WayGrows(c, s, first, v, n, d);
      var s1 := RunFrom(c, s, first);
      forall j | j in a - {i} ensures Heard(c, s1, j, n, d, b * {j}) { HeardStays(c, s, s1, j, n, d, b * {j}); }
      var rest := PrepareAll(c, s1, a - {i}, b, v, n, d);
      WayGrows(c, s1, rest, v, n, d);
      HeardStays(c, s1, RunFrom(c, s1, rest), i, n, d, b);
      WayOn(c, s, first, rest, v, n, d);
      steps := first + rest;
    }
  }

  lemma {:induction false} CommitAll(c: Config, s: State, a: set<Id>, b: set<Id>, v: View, n: Seqno, d: Digest) returns (steps: seq<Step>)
    requires Calm(c, s, v, n, d) && c.f >= 1 && |b| == 2 * c.f
    requires forall i :: i in a ==> c.Correct(i) && Heard(c, s, i, n, d, b)
    ensures Way(c, s, steps, v, n, d) && forall i :: i in a ==> Commit(i, v, n) in RunFrom(c, s, steps).net
    decreases |a|
  {
    hide Calm, Way, RunFrom, Heard;
    if a == {} {
      steps := [];
      WayNone(c, s, v, n, d);
    } else {
      var i :| i in a;
      HeardPrepares(c, s, i, v, n, d, b);
      CommitOne(c, s, i, v, n, d);
      hide Enabled, Apply;
      var t := SendCommit(i, n);
      var s1 := Apply(c, s, t);
      WayStep(c, s, t, v, n, d);
      forall j | j in a - {i} ensures Heard(c, s1, j, n, d, b) { HeardStays(c, s, s1, j, n, d, b); }
      var rest := CommitAll(c, s1, a - {i}, b, v, n, d);
      WayGrows(c, s1, rest, v, n, d);
      WayOn(c, s, [t], rest, v, n, d);
      steps := [t] + rest;
    }
  }

  ghost predicate Collected(c: Config, s: State, i: Id, n: Seqno, a: set<Id>) {
    i in s.replicas && a <= s.replicas[i].Commits(c, n).msgs.Keys
  }

  lemma CollectedStays(c: Config, s: State, s': State, i: Id, n: Seqno, a: set<Id>)
    requires Collected(c, s, i, n, a) && Grown(c, s, s', n) && c.Correct(i)
    ensures Collected(c, s', i, n, a)
  {
    assert GrownAt(c, s.replicas[i], s'.replicas[i], n);
  }

  lemma {:induction false} CollectOne(c: Config, s: State, i: Id, a: set<Id>, v: View, n: Seqno, d: Digest) returns (steps: seq<Step>)
    requires Calm(c, s, v, n, d) && c.Correct(i) && forall k :: k in a ==> k < c.N() && Commit(k, v, n) in s.net
    ensures Way(c, s, steps, v, n, d) && Collected(c, RunFrom(c, s, steps), i, n, a)
    decreases |a|
  {
    if a == {} {
      steps := [];
      WayNone(c, s, v, n, d);
    } else {
      hide Calm, Way, RunFrom;
      var k :| k in a;
      var steps1 := CollectOne(c, s, i, a - {k}, v, n, d);
      WayGrows(c, s, steps1, v, n, d);
      var s1 := RunFrom(c, s, steps1);
      var t := ReceiveCommit(i, Commit(k, v, n));
      DeliverCommit(c, s1, i, k, v, n, d);
      hide Enabled, Apply;
      WayStep(c, s1, t, v, n, d);
      CollectedStays(c, s1, Apply(c, s1, t), i, n, a - {k});
      WayOn(c, s, steps1, [t], v, n, d);
      steps := steps1 + [t];
    }
  }

  lemma {:induction false} CollectAll(c: Config, s: State, who: set<Id>, a: set<Id>, v: View, n: Seqno, d: Digest) returns (steps: seq<Step>)
    requires Calm(c, s, v, n, d) && (forall i :: i in who ==> c.Correct(i)) && forall k :: k in a ==> k < c.N() && Commit(k, v, n) in s.net
    ensures Way(c, s, steps, v, n, d) && forall i :: i in who ==> Collected(c, RunFrom(c, s, steps), i, n, a)
    decreases |who|
  {
    hide Calm, Way, RunFrom, Collected;
    if who == {} {
      steps := [];
      WayNone(c, s, v, n, d);
    } else {
      var i :| i in who;
      var first := CollectOne(c, s, i, a, v, n, d);
      WayGrows(c, s, first, v, n, d);
      var s1 := RunFrom(c, s, first);
      var rest := CollectAll(c, s1, who - {i}, a, v, n, d);
      WayGrows(c, s1, rest, v, n, d);
      CollectedStays(c, s1, RunFrom(c, s1, rest), i, n, a);
      WayOn(c, s, first, rest, v, n, d);
      steps := first + rest;
    }
  }

  /** 2f+1 received commits make a complete commit certificate. */
  lemma CollectedCommits(c: Config, s: State, i: Id, v: View, n: Seqno, d: Digest, a: set<Id>)
    requires Calm(c, s, v, n, d) && c.Correct(i) && |a| == 2 * c.f + 1 && Collected(c, s, i, n, a)
    ensures s.replicas[i].Commits(c, n).IsComplete()
  {
    assert CalmAt(c, s.replicas[i], i, v, n, d);
    OnlyComplete(s.replicas[i].Commits(c, n), (), a);
  }

  // ---------------------------------------------------------------- from the beginning

  /** Replica i has just entered view v. */
  ghost predicate Entered(s: State, i: Id, v: View) {
    i in s.replicas && s.replicas[i] == Replica(v, 0, map[], map[])
  }

  lemma {:induction false} EnterAll(c: Config, s: State, who: set<Id>, v: View) returns (steps: seq<Step>)
    requires v > 0 && forall i :: i in who ==> c.Correct(i) && Entered(s, i, 0)
    ensures CanRun(c, s, steps)
    ensures var s' := RunFrom(c, s, steps);
            s'.replicas.Keys == s.replicas.Keys && s'.net == s.net && forall i :: i in who ==> Entered(s', i, v)
    ensures forall i :: i in s.replicas && i !in who ==> RunFrom(c, s, steps).replicas[i] == s.replicas[i]
    decreases |who|
  {
    if who == {} {
      steps := [];
    } else {
      var i :| i in who;
      var t := ChangeView(i, v);
      var s1 := Apply(c, s, t);
      var rest := EnterAll(c, s1, who - {i}, v);
      RunStep(c, s, t);
      RunOn(c, s, [t], rest);
      steps := [t] + rest;
    }
  }

  lemma EnteredIsCalm(c: Config, s: State, v: View, n: Seqno, d: Digest)
    requires s.replicas.Keys == c.Replicas() && n > 0 && forall i :: c.Correct(i) ==> Entered(s, i, v)
    ensures Calm(c, s, v, n, d) && forall i :: c.Correct(i) ==> Silent(c, s, i, n)
  {
  }

  lemma Propose(c: Config, s: State, v: View, n: Seqno, d: Digest)
    requires Calm(c, s, v, n, d) && c.Correct(c.Primary(v)) && Silent(c, s, c.Primary(v), n)
    ensures var i := c.Primary(v);
            && Enabled(c, s, SendPrePrepare(i, n, d))
            && var s' := Apply(c, s, SendPrePrepare(i, n, d));
               && Calm(c, s', v, n, d) && Grown(c, s, s', n) && OnlyAt(s, s', i)
               && PrePrepare(i, v, n, d) in s'.net && Heard(c, s', i, n, d, {})
  {
    var i := c.Primary(v);
    assert CalmAt(c, s.replicas[i], i, v, n, d);
    CalmStep(c, s, Apply(c, s, SendPrePrepare(i, n, d)), i, v, n, d);
  }

  /** There are 2f+1 correct replicas, the primary among them. */
  lemma Quorum(c: Config, v: View) returns (a: set<Id>)
    requires c.Valid() && c.Correct(c.Primary(v))
    ensures |a| == 2 * c.f + 1 && c.Primary(v) in a && forall i :: i in a ==> c.Correct(i)
  {
    var all := c.Replicas() - c.faulty;
    assert |all| == c.N() - |c.faulty|;
    a := Shrink(all, c.Primary(v), 2 * c.f + 1);
  }

  lemma {:induction false} Shrink<T>(s: set<T>, x: T, k: nat) returns (t: set<T>)
    requires x in s && 1 <= k <= |s|
    ensures t <= s && x in t && |t| == k
    decreases |s|
  {
    if |s| == k {
      t := s;
    } else {
      SubsetSize({x}, s);
      var y := Another(s, x);
      t := Shrink(s - {y}, x, k);
    }
  }

  lemma Another<T>(s: set<T>, x: T) returns (y: T)
    requires x in s && |s| > 1
    ensures y in s && y != x
  {
    assert |s - {x}| > 0;
    y :| y in s - {x};
  }

  /** From a calm view in which nothing has been said for n: 2f+1 correct replicas prepare d and collect each other's commits. */
  lemma Decide(c: Config, s: State, a: set<Id>, v: View, n: Seqno, d: Digest) returns (steps: seq<Step>)
    requires c.f >= 1 && Calm(c, s, v, n, d) && |a| == 2 * c.f + 1 && c.Primary(v) in a
    requires forall i :: i in a ==> c.Correct(i) && Silent(c, s, i, n)
    ensures Way(c, s, steps, v, n, d)
    ensures forall i :: i in a ==> HasPrepared(c, RunFrom(c, s, steps), i, v, n, d) && RunFrom(c, s, steps).replicas[i].Commits(c, n).IsComplete()
  {
    hide Calm, Way, RunFrom, Heard, Voted, Silent, Collected, HasPrepared;
    var primary := c.Primary(v);
    var b, t := a - {primary}, SendPrePrepare(primary, n, d);
    Propose(c, s, v, n, d);
    var s1 := Apply(c, s, t);
    forall i | i in b ensures Silent(c, s1, i, n) { SilentElsewhere(c, s, s1, primary, i, n); }
    hide Enabled, Apply;
    WayStep(c, s, t, v, n, d);
    var voting := VoteAll(c, s1, b, v, n, d);
    WayGrows(c, s1, voting, v, n, d);
    var s2 := RunFrom(c, s1, voting);
    forall i | i in a ensures Heard(c, s2, i, n, d, b * {i}) {
      if i == primary {
        assert b * {i} == {};
        HeardStays(c, s1, s2, i, n, d, {});
      } else {
        assert b * {i} == {i};
        VotedHeard(c, s2, i, v, n, d);
      }
    }
    forall k | k in b ensures Prepare(k, v, n, d) in s2.net { VotedHeard(c, s2, k, v, n, d); }
    var hearing := PrepareAll(c, s2, a, b, v, n, d);
    WayGrows(c, s2, hearing, v, n, d);
    var s3 := RunFrom(c, s2, hearing);
    var rest := Conclude(c, s3, a, b, v, n, d);
    WayOn(c, s2, hearing, rest, v, n, d);
    WayOn(c, s1, voting, hearing + rest, v, n, d);
    WayOn(c, s, [t], voting + (hearing + rest), v, n, d);
    steps := [t] + (voting + (hearing + rest));
  }

  /** The commits, sent and collected */
  lemma Conclude(c: Config, s: State, a: set<Id>, b: set<Id>, v: View, n: Seqno, d: Digest) returns (steps: seq<Step>)
    requires c.f >= 1 && Calm(c, s, v, n, d) && |a| == 2 * c.f + 1 && |b| == 2 * c.f
    requires forall i :: i in a ==> c.Correct(i) && Heard(c, s, i, n, d, b)
    ensures Way(c, s, steps, v, n, d)
    ensures forall i :: i in a ==> HasPrepared(c, RunFrom(c, s, steps), i, v, n, d) && RunFrom(c, s, steps).replicas[i].Commits(c, n).IsComplete()
  {
    hide Calm, Way, RunFrom, Heard, Collected, HasPrepared;
    var committing := CommitAll(c, s, a, b, v, n, d);
    WayGrows(c, s, committing, v, n, d);
    var s1 := RunFrom(c, s, committing);
    var collecting := CollectAll(c, s1, a, a, v, n, d);
    WayGrows(c, s1, collecting, v, n, d);
    var s2 := RunFrom(c, s1, collecting);
    WayOn(c, s, committing, collecting, v, n, d);
    steps := committing + collecting;
    GrownOn(c, s, s1, s2, n);
    forall i | i in a ensures HasPrepared(c, s2, i, v, n, d) && s2.replicas[i].Commits(c, n).IsComplete() {
      HeardStays(c, s, s2, i, n, d, b);
      HeardPrepares(c, s2, i, v, n, d, b);
      CollectedCommits(c, s2, i, v, n, d, a);
    }
  }

  lemma VotedHeard(c: Config, s: State, b: Id, v: View, n: Seqno, d: Digest)
    requires Voted(c, s, b, v, n, d)
    ensures Heard(c, s, b, n, d, {b}) && Prepare(b, v, n, d) in s.net
  {
  }

  lemma SilentElsewhere(c: Config, s: State, s': State, i: Id, j: Id, n: Seqno)
    requires OnlyAt(s, s', i) && j != i && Silent(c, s, j, n)
    ensures Silent(c, s', j, n)
  {
  }

  /** All correct replicas enter the view. */
  lemma EnterView(c: Config, s: State, v: View, n: Seqno, d: Digest) returns (steps: seq<Step>)
    requires Init(c, s) && n > 0
    ensures CanRun(c, s, steps) && Calm(c, RunFrom(c, s, steps), v, n, d)
    ensures forall i :: c.Correct(i) ==> Silent(c, RunFrom(c, s, steps), i, n)
  {
    hide Enabled, Apply, CanRun, RunFrom;
    steps := [];
    RunNone(c, s);
    if v > 0 { steps := EnterAll(c, s, c.Replicas() - c.faulty, v); }
    var s1 := RunFrom(c, s, steps);
    forall i | c.Correct(i) ensures Entered(s1, i, v) {
      assert i in c.Replicas() - c.faulty;
    }
    EnteredIsCalm(c, s1, v, n, d);
  }

  /**
   Progress: for every f from one on, every set of at most f faulty replicas and every view with a correct
   primary, there is a run from the beginning in which 2f+1 correct replicas have prepared a given digest
   and hold complete commit certificates for it.
   */
  lemma Progress(c: Config, s: State, v: View, n: Seqno, d: Digest) returns (run: seq<State>, steps: seq<Step>, a: set<Id>)
    requires c.Valid() && c.f >= 1 && Init(c, s) && c.Correct(c.Primary(v)) && n > 0
    ensures IsRun(c, run, steps) && |a| == 2 * c.f + 1
    ensures forall i :: i in a ==> c.Correct(i) && HasPrepared(c, run[|steps|], i, v, n, d) && run[|steps|].replicas[i].Commits(c, n).IsComplete()
  {
    hide Calm, Way, RunFrom, HasPrepared, Enabled, Apply, Silent, CanRun;
    a := Quorum(c, v);
    var enter := EnterView(c, s, v, n, d);
    var s1 := RunFrom(c, s, enter);
    var rest := Decide(c, s1, a, v, n, d);
    WayGrows(c, s1, rest, v, n, d);
    RunOn(c, s, enter, rest);
    steps := enter + rest;
    run := RunStates(c, s, steps);
  }

  /** With f == 0 there is no backup, but the certificate asked for 0 prepares takes 2f+1: nothing is ever prepared. */
  lemma NoneWithoutBackups(c: Config, run: seq<State>, steps: seq<Step>, a: nat, i: Id, v: View, n: Seqno, d: Digest)
    requires c.Valid() && c.f == 0 && IsRun(c, run, steps) && a < |run| && c.Correct(i)
    ensures !HasPrepared(c, run[a], i, v, n, d)
  {
    RunInv(c, run, steps, a);
    PreparesSound(c, run[a], i, n);
    var p := run[a].replicas[i].Prepares(c, n);
    assert forall w :: p.pc.Senders(w) == {};
  }
}
