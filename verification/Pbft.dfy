/**
 The normal case of the replication protocol of libbyz as a step system: pre-prepare, prepare
 and commit messages over a network that an adversary controls, with up to f of 3f+1 replicas
 faulty. Correct replicas act through their certificates, and drop them only when they leave
 a view or truncate the log.
 */
module Pbft {
  import opened Certificates
  import opened FiniteSets
  import opened Sequences

  type View = nat
  type Seqno = nat

  /** num_replicas == 3 * max_faulty + 1 and threshold == 2 * max_faulty + 1 */
  datatype Config = Config(f: nat, faulty: set<Id>) {
    function N(): nat { 3 * f + 1 }

    ghost predicate Valid() {
      faulty <= Replicas() && |faulty| <= f
    }

    ghost function Replicas(): set<Id> { Below(N()) }

    function Primary(v: View): Id { v % N() }

    ghost predicate Correct(i: Id) { i < N() && i !in faulty }
  }

  /** Senders are authenticated, and digests do not collide. */
  datatype Message =
    | PrePrepare(id: Id, view: View, seqno: Seqno, digest: Digest)
    | Prepare(id: Id, view: View, seqno: Seqno, digest: Digest)
    | Commit(id: Id, view: View, seqno: Seqno)

  // ---------------------------------------------------------------- prepared certificates

  /** Prepared_cert: pi.pp with pi.mreqs == 0, and the prepares. */
  datatype PreparedCert = PreparedCert(pp: Option<Digest>, ppComplete: bool, primary: bool, pc: Certificate<Digest>) {
    ghost predicate IsComplete() {
      pp.Some? && ppComplete && pc.IsComplete() && pc.c == pp
    }

    /** Prepared_cert::mark_stale, in a node that is the primary or not. */
    ghost function MarkStale(i: Id, isPrimary: bool): PreparedCert {
      if IsComplete() then this
      else PreparedCert(if isPrimary then pp else None, isPrimary && ppComplete, primary, pc.MarkStale(i))
    }
  }

  /** A certificate asked to be complete with 0 messages takes 2f+1. */
  function Threshold(c: Config, complete: nat): nat {
    if complete == 0 then 2 * c.f + 1 else complete
  }

  ghost function NoPrepares(c: Config): PreparedCert {
    PreparedCert(None, false, false, Empty(c.f + 1, Threshold(c, 2 * c.f)))
  }

  ghost function NoCommits(c: Config): Certificate<()> {
    Empty(c.f + 1, Threshold(c, 0))
  }

  // ---------------------------------------------------------------- replicas

  /** One replica: its view, the last stable sequence number, and the certificates above it. */
  datatype Replica = Replica(view: View, stable: Seqno, plog: map<Seqno, PreparedCert>, clog: map<Seqno, Certificate<()>>) {
    ghost function Prepares(c: Config, n: Seqno): PreparedCert {
      if n in plog then plog[n] else NoPrepares(c)
    }

    ghost function Commits(c: Config, n: Seqno): Certificate<()> {
      if n in clog then clog[n] else NoCommits(c)
    }
  }

  /** A correct replica that had a complete prepared certificate when it sent its commit. */
  datatype Record = Record(id: Id, view: View, seqno: Seqno, digest: Digest)

  datatype State = State(replicas: map<Id, Replica>, net: set<Message>, prepared: set<Record>)

  datatype Step =
    | SendPrePrepare(i: Id, n: Seqno, d: Digest)
    | ReceivePrePrepare(i: Id, m: Message, cached: bool)
    | CacheRequests(i: Id, n: Seqno)
    | SendPrepare(i: Id, n: Seqno)
    | ReceivePrepare(i: Id, m: Message)
    | SendCommit(i: Id, n: Seqno)
    | ReceiveCommit(i: Id, m: Message)
    | MarkStale(i: Id, n: Seqno)
    | ChangeView(i: Id, v: View)
    | Truncate(i: Id, n: Seqno)
    | Forge(m: Message)

  ghost predicate Init(c: Config, s: State) {
    && s.replicas.Keys == c.Replicas()
    && (forall i :: i in s.replicas ==> s.replicas[i] == Replica(0, 0, map[], map[]))
    && s.net == {} && s.prepared == {}
  }

  ghost function Send(s: State, i: Id, r: Replica, m: Message): State {
    State(s.replicas[i := r], s.net + {m}, s.prepared)
  }

  ghost function Set(s: State, i: Id, r: Replica): State {
    s.(replicas := s.replicas[i := r])
  }

  /** What a correct replica may do, and what a faulty one may send. */
  ghost predicate Enabled(c: Config, s: State, t: Step) {
    if t.Forge? then t.m.id in c.faulty
    else
      && t.i in s.replicas && c.Correct(t.i)
      && var r := s.replicas[t.i];
      match t
      case SendPrePrepare(i, n, d) =>
        i == c.Primary(r.view) && r.stable < n && r.Prepares(c, n).pp.None?
      case ReceivePrePrepare(i, m, _) =>
        && m in s.net && m.PrePrepare? && m.view == r.view && m.id == c.Primary(m.view) && i != m.id
        && r.stable < m.seqno && r.Prepares(c, m.seqno).pc.mine.None?
      case CacheRequests(i, n) =>
        r.stable < n && r.Prepares(c, n).pp.Some?
      case SendPrepare(i, n) =>
        && i != c.Primary(r.view) && r.stable < n
        && r.Prepares(c, n).pp.Some? && r.Prepares(c, n).pc.mine.None?
        && r.Prepares(c, n).pc.CanAdd(i, r.Prepares(c, n).pp.value)
      case ReceivePrepare(i, m) =>
        && m in s.net && m.Prepare? && m.view == r.view && m.id < c.N() && m.id != c.Primary(m.view)
        && m.id != i && r.stable < m.seqno
      case SendCommit(i, n) =>
        r.stable < n && r.Prepares(c, n).IsComplete()
      case ReceiveCommit(i, m) =>
        m in s.net && m.Commit? && m.view == r.view && m.id < c.N() && r.stable < m.seqno
      case MarkStale(i, n) =>
        r.stable < n
      case ChangeView(i, v) =>
        r.view < v
      case Truncate(i, n) =>
        r.stable < n
      case Forge(_) => false
  }

  ghost function Apply(c: Config, s: State, t: Step): State
    requires Enabled(c, s, t)
  {
    match t
    case Forge(m) => s.(net := s.net + {m})
    case SendPrePrepare(i, n, d) =>
      var r := s.replicas[i];
      Send(s, i, r.(plog := r.plog[n := r.Prepares(c, n).(pp := Some(d), ppComplete := true, primary := true)]),
           PrePrepare(i, r.view, n, d))
    case ReceivePrePrepare(i, m, cached) =>
      var r := s.replicas[i];
      Set(s, i, r.(plog := r.plog[m.seqno := r.Prepares(c, m.seqno).(pp := Some(m.digest), ppComplete := cached)]))
    case CacheRequests(i, n) =>
      var r := s.replicas[i];
      Set(s, i, r.(plog := r.plog[n := r.Prepares(c, n).(ppComplete := true)]))
    case SendPrepare(i, n) =>
      var r := s.replicas[i];
      var p := r.Prepares(c, n);
      Send(s, i, r.(plog := r.plog[n := p.(pc := p.pc.AddMine(i, p.pp.value))]), Prepare(i, r.view, n, p.pp.value))
    case ReceivePrepare(i, m) =>
      var r := s.replicas[i];
      var p := r.Prepares(c, m.seqno);
      Set(s, i, r.(plog := r.plog[m.seqno := p.(pc := p.pc.Add(m.id, m.digest))]))
    case SendCommit(i, n) =>
      var r := s.replicas[i];
      Send(s, i, r, Commit(i, r.view, n)).(prepared := s.prepared + {Record(i, r.view, n, r.Prepares(c, n).pp.value)})
    case ReceiveCommit(i, m) =>
      var r := s.replicas[i];
      Set(s, i, r.(clog := r.clog[m.seqno := r.Commits(c, m.seqno).Add(m.id, ())]))
    case MarkStale(i, n) =>
      var r := s.replicas[i];
      Set(s, i, r.(plog := r.plog[n := r.Prepares(c, n).MarkStale(i, i == c.Primary(r.view))]))
    case ChangeView(i, v) =>
      var r := s.replicas[i];
      Set(s, i, Replica(v, r.stable, map[], map[]))
    case Truncate(i, n) =>
      var r := s.replicas[i];
      Set(s, i, Replica(r.view, n, map k | k in r.plog && n < k :: r.plog[k], map k | k in r.clog && n < k :: r.clog[k]))
  }

  ghost predicate IsRun(c: Config, run: seq<State>, steps: seq<Step>) {
    && |run| == |steps| + 1 && Init(c, run[0])
    && forall k :: 0 <= k < |steps| ==> Enabled(c, run[k], steps[k]) && run[k + 1] == Apply(c, run[k], steps[k])
  }

  // ---------------------------------------------------------------- the invariant

  /** The message with which k stands for digest d: the primary's pre-prepare, or a backup's prepare. */
  function Vote(c: Config, k: Id, v: View, n: Seqno, d: Digest): Message {
    if k == c.Primary(v) then PrePrepare(k, v, n, d) else Prepare(k, v, n, d)
  }

  ghost function Voters(c: Config, net: set<Message>, v: View, n: Seqno, d: Digest): set<Id> {
    set k | k in c.Replicas() && Vote(c, k, v, n, d) in net
  }

  /** A pre-prepare and 2f matching prepares have been sent. */
  ghost predicate Evidence(c: Config, net: set<Message>, v: View, n: Seqno, d: Digest) {
    |Voters(c, net, v, n, d)| >= 2 * c.f + 1
  }

  ghost predicate SoundPrepares(c: Config, net: set<Message>, i: Id, v: View, n: Seqno, p: PreparedCert) {
    && (p.pp.Some? ==> PrePrepare(c.Primary(v), v, n, p.pp.value) in net)
    && (forall k :: k in p.pc.msgs ==> k < c.N() && k != c.Primary(v) && Prepare(k, v, n, p.pc.msgs[k]) in net)
    && (p.pc.mine.Some? ==> i in p.pc.msgs && p.pc.msgs[i] == p.pc.mine.value)
    && p.pc.Valid() && p.pc.correct == c.f + 1 && p.pc.complete == Threshold(c, 2 * c.f)
  }

  ghost predicate SoundCommits(c: Config, net: set<Message>, v: View, n: Seqno, p: Certificate<()>) {
    && (forall k :: k in p.msgs ==> k < c.N() && Commit(k, v, n) in net)
    && p.complete == 2 * c.f + 1
  }

  /** Certificates hold only messages that were sent. */
  ghost predicate Sound(c: Config, net: set<Message>, i: Id, r: Replica) {
    && (forall n :: n in r.plog ==> r.stable < n && SoundPrepares(c, net, i, r.view, n, r.plog[n]))
    && (forall n :: n in r.clog ==> r.stable < n && SoundCommits(c, net, r.view, n, r.clog[n]))
  }

  /** While a replica is in the view and the window of its message, the message is in its log. */
  ghost predicate Remembers(c: Config, r: Replica, m: Message) {
    && m.view <= r.view
    && (m.PrePrepare? ==> m.id == c.Primary(m.view))
    && (m.Prepare? ==> m.id != c.Primary(m.view))
    && (m.view == r.view && r.stable < m.seqno ==>
          && (m.PrePrepare? ==> m.seqno in r.plog && r.plog[m.seqno].pp == Some(m.digest))
          && (m.Prepare? ==> m.seqno in r.plog && r.plog[m.seqno].pc.mine == Some(m.digest)))
  }

  ghost predicate Conflict(m: Message, m': Message) {
    && ((m.PrePrepare? && m'.PrePrepare?) || (m.Prepare? && m'.Prepare?))
    && m.id == m'.id && m.view == m'.view && m.seqno == m'.seqno && m.digest != m'.digest
  }

  ghost predicate Inv(c: Config, s: State) {
    && s.replicas.Keys == c.Replicas()
    && (forall i :: i in s.replicas && c.Correct(i) ==> Sound(c, s.net, i, s.replicas[i]))
    && (forall m :: m in s.net && c.Correct(m.id) ==> Remembers(c, s.replicas[m.id], m))
    && (forall m, m' :: m in s.net && m' in s.net && c.Correct(m.id) ==> !Conflict(m, m'))
    && (forall p :: p in s.prepared ==> c.Correct(p.id) && Evidence(c, s.net, p.view, p.seqno, p.digest))
    && (forall m :: m in s.net && m.Commit? && c.Correct(m.id) ==>
          exists d :: Record(m.id, m.view, m.seqno, d) in s.prepared)
  }

  /** The replicas are primary in turn. */
  lemma Turn(c: Config, v: View)
    ensures c.Primary(v) < c.N()
    ensures exists k: nat :: v == k * c.N() + c.Primary(v)
  {
    assert v == v / c.N() * c.N() + v % c.N();
  }

  // ---------------------------------------------------------------- quorums

  lemma EvidenceGrows(c: Config, net: set<Message>, net': set<Message>, v: View, n: Seqno, d: Digest)
    requires net <= net' && Evidence(c, net, v, n, d)
    ensures Evidence(c, net', v, n, d)
  {
    SubsetSize(Voters(c, net, v, n, d), Voters(c, net', v, n, d));
  }

  /** Two sets of 2f+1 out of 3f+1 replicas share a correct one. */
  lemma QuorumsMeet(c: Config, a: set<Id>, b: set<Id>) returns (k: Id)
    requires c.Valid() && a <= c.Replicas() && b <= c.Replicas()
    requires |a| >= 2 * c.f + 1 && |b| >= 2 * c.f + 1
    ensures k in a && k in b && c.Correct(k)
  {
    SubsetSize(a + b, c.Replicas());
    assert |a + b| + |a * b| == |a| + |b|;
    if a * b <= c.faulty {
      SubsetSize(a * b, c.faulty);
      assert false;
    }
    k :| k in a * b && k !in c.faulty;
  }

  /** In one view, two digests cannot both gather evidence for the same sequence number. */
  lemma EvidenceAgrees(c: Config, net: set<Message>, v: View, n: Seqno, d: Digest, d': Digest)
    requires c.Valid()
    requires forall m, m' :: m in net && m' in net && c.Correct(m.id) ==> !Conflict(m, m')
    requires Evidence(c, net, v, n, d) && Evidence(c, net, v, n, d')
    ensures d == d'
  {
    var k := QuorumsMeet(c, Voters(c, net, v, n, d), Voters(c, net, v, n, d'));
    assert !Conflict(Vote(c, k, v, n, d), Vote(c, k, v, n, d'));
  }

  /** A complete prepared certificate is evidence. */
  lemma CompleteIsEvidence(c: Config, net: set<Message>, i: Id, v: View, n: Seqno, p: PreparedCert)
    requires c.Valid() && SoundPrepares(c, net, i, v, n, p) && p.IsComplete()
    ensures Evidence(c, net, v, n, p.pp.value)
  {
    var senders, primary := p.pc.Senders(p.pp.value), c.Primary(v);
    assert |senders| >= 2 * c.f;
    assert primary !in senders;
    assert |senders + {primary}| == |senders| + 1;
    assert senders + {primary} <= Voters(c, net, v, n, p.pp.value);
    SubsetSize(senders + {primary}, Voters(c, net, v, n, p.pp.value));
  }

  // ---------------------------------------------------------------- every step keeps the invariant

  lemma SoundGrows(c: Config, net: set<Message>, net': set<Message>, i: Id, r: Replica)
    requires net <= net' && Sound(c, net, i, r)
    ensures Sound(c, net', i, r)
  {
  }

  /** Replica i goes from s to s', perhaps sending a message; what is left to show is about i alone. */
  ghost predicate Local(c: Config, s: State, s': State, i: Id) {
    && Inv(c, s) && c.Correct(i) && i in s'.replicas && s'.replicas == s.replicas[i := s'.replicas[i]]
    && s.net <= s'.net && s.prepared <= s'.prepared
    && (forall m :: m in s'.net ==> m in s.net || m.id == i)
    && Sound(c, s'.net, i, s'.replicas[i])
    && (forall m :: m in s'.net && m.id == i ==> Remembers(c, s'.replicas[i], m))
  }

  lemma LocalKeepsInv(c: Config, s: State, s': State, i: Id)
    requires Local(c, s, s', i)
    requires forall m, m' :: m in s'.net && m' in s'.net && m.id == i ==> !Conflict(m, m')
    requires forall p :: p in s'.prepared ==> p in s.prepared || (p.id == i && Evidence(c, s'.net, p.view, p.seqno, p.digest))
    requires forall m :: m in s'.net && m.Commit? && m !in s.net ==> exists d :: Record(m.id, m.view, m.seqno, d) in s'.prepared
    ensures Inv(c, s')
  {
    assert s'.replicas.Keys == s.replicas.Keys + {i};
    forall j | j in s'.replicas && c.Correct(j)
      ensures Sound(c, s'.net, j, s'.replicas[j])
    {
      if j != i {
        SoundGrows(c, s.net, s'.net, j, s.replicas[j]);
      }
    }
    forall p | p in s'.prepared
      ensures c.Correct(p.id) && Evidence(c, s'.net, p.view, p.seqno, p.digest)
    {
      if p in s.prepared {
        EvidenceGrows(c, s.net, s'.net, p.view, p.seqno, p.digest);
      }
    }
    forall m | m in s'.net && m.Commit? && c.Correct(m.id)
      ensures exists d :: Record(m.id, m.view, m.seqno, d) in s'.prepared
    {
      if m in s.net {
        var d :| Record(m.id, m.view, m.seqno, d) in s.prepared;
        assert Record(m.id, m.view, m.seqno, d) in s'.prepared;
      }
    }
  }

  /** A replica that sends nothing keeps the invariant if it stays sound and forgets nothing. */
  lemma QuietStep(c: Config, s: State, i: Id, r: Replica)
    requires Inv(c, s) && c.Correct(i) && i in s.replicas && Sound(c, s.net, i, r)
    requires forall m :: m in s.net && m.id == i ==> Remembers(c, r, m)
    ensures Inv(c, Set(s, i, r))
  {
    LocalKeepsInv(c, s, Set(s, i, r), i);
  }

  ghost predicate SameVoice(p: PreparedCert, q: PreparedCert) {
    p.pp == q.pp && p.pc.mine == q.pc.mine
  }

  /** Changing one certificate, where neither the pre-prepare nor the own prepare is lost. */
  lemma QuietCertificate(c: Config, s: State, i: Id, n: Seqno, p: PreparedCert)
    requires Inv(c, s) && c.Correct(i) && i in s.replicas
    requires var r := s.replicas[i]; r.stable < n && SoundPrepares(c, s.net, i, r.view, n, p) && SameVoice(r.Prepares(c, n), p)
    ensures var r := s.replicas[i]; Inv(c, Set(s, i, r.(plog := r.plog[n := p])))
  {
    var r := s.replicas[i];
    var r' := r.(plog := r.plog[n := p]);
    forall m | m in s.net && m.id == i
      ensures Remembers(c, r', m)
    {
      assert Remembers(c, r, m);
    }
    QuietStep(c, s, i, r');
  }

  lemma PreparesSound(c: Config, s: State, i: Id, n: Seqno)
    requires Inv(c, s) && c.Correct(i) && i in s.replicas
    ensures SoundPrepares(c, s.net, i, s.replicas[i].view, n, s.replicas[i].Prepares(c, n))
  {
  }

  lemma ForgeStep(c: Config, s: State, m: Message)
    requires Inv(c, s) && Enabled(c, s, Forge(m))
    ensures Inv(c, Apply(c, s, Forge(m)))
  {
    var s' := Apply(c, s, Forge(m));
    forall j | j in s'.replicas && c.Correct(j)
      ensures Sound(c, s'.net, j, s'.replicas[j])
    {
      SoundGrows(c, s.net, s'.net, j, s.replicas[j]);
    }
    forall p | p in s'.prepared
      ensures Evidence(c, s'.net, p.view, p.seqno, p.digest)
    {
      EvidenceGrows(c, s.net, s'.net, p.view, p.seqno, p.digest);
    }
  }

  /** Replica i puts m0 in its certificate for n, where it had no such message, and sends it. */
  lemma SendStep(c: Config, s: State, i: Id, n: Seqno, p: PreparedCert, m0: Message)
    requires Inv(c, s) && i in s.replicas && c.Correct(i) && s.replicas[i].stable < n
    requires m0.id == i && m0.view == s.replicas[i].view && m0.seqno == n && !m0.Commit?
    requires
      var was := s.replicas[i].Prepares(c, n);
      if m0.PrePrepare? then i == c.Primary(m0.view) && was.pp.None? && p.pp == Some(m0.digest) && p.pc.mine == was.pc.mine
      else i != c.Primary(m0.view) && was.pc.mine.None? && p.pc.mine == Some(m0.digest) && p.pp == was.pp
    requires SoundPrepares(c, s.net + {m0}, i, m0.view, n, p)
    ensures var r := s.replicas[i]; Inv(c, Send(s, i, r.(plog := r.plog[n := p]), m0))
  {
    var r := s.replicas[i];
    var s' := Send(s, i, r.(plog := r.plog[n := p]), m0);
    SoundGrows(c, s.net, s'.net, i, r);
    hide SoundPrepares, SoundCommits, Evidence;
    forall m | m in s'.net && m.id == i
      ensures Remembers(c, s'.replicas[i], m)
      ensures m != m0 ==> !Conflict(m, m0) && !Conflict(m0, m)
    {
      if m != m0 {
        assert Remembers(c, r, m);
      }
    }
    hide Remembers;
    LocalKeepsInv(c, s, s', i);
  }

  lemma SendPrePrepareStep(c: Config, s: State, i: Id, n: Seqno, d: Digest)
    requires Inv(c, s) && Enabled(c, s, SendPrePrepare(i, n, d))
    ensures Inv(c, Apply(c, s, SendPrePrepare(i, n, d)))
  {
    var r := s.replicas[i];
    PreparesSound(c, s, i, n);
    hide Inv;
    SendStep(c, s, i, n, r.Prepares(c, n).(pp := Some(d), ppComplete := true, primary := true), PrePrepare(i, r.view, n, d));
  }

  lemma SendPrepareStep(c: Config, s: State, i: Id, n: Seqno)
    requires Inv(c, s) && Enabled(c, s, SendPrepare(i, n))
    ensures Inv(c, Apply(c, s, SendPrepare(i, n)))
  {
    var r := s.replicas[i];
    var p := r.Prepares(c, n);
    PreparesSound(c, s, i, n);
    hide Inv;
    AddMineValid(p.pc, i, p.pp.value);
    SendStep(c, s, i, n, p.(pc := p.pc.AddMine(i, p.pp.value)), Prepare(i, r.view, n, p.pp.value));
  }

  lemma CertificateIsEvidence(c: Config, s: State, i: Id, n: Seqno)
    requires c.Valid() && Inv(c, s) && c.Correct(i) && i in s.replicas && s.replicas[i].Prepares(c, n).IsComplete()
    ensures var r := s.replicas[i]; Evidence(c, s.net, r.view, n, r.Prepares(c, n).pp.value)
  {
    PreparesSound(c, s, i, n);
    hide Inv;
    CompleteIsEvidence(c, s.net, i, s.replicas[i].view, n, s.replicas[i].Prepares(c, n));
  }

  /** Replica i records a digest it has evidence of and sends its commit. */
  lemma CommitSent(c: Config, s: State, i: Id, n: Seqno, d: Digest)
    requires Inv(c, s) && c.Correct(i) && i in s.replicas && Evidence(c, s.net, s.replicas[i].view, n, d)
    ensures var r := s.replicas[i]; Inv(c, Send(s, i, r, Commit(i, r.view, n)).(prepared := s.prepared + {Record(i, r.view, n, d)}))
  {
    hide SoundPrepares, SoundCommits, Evidence, Sound;
    var r := s.replicas[i];
    var s' := Send(s, i, r, Commit(i, r.view, n)).(prepared := s.prepared + {Record(i, r.view, n, d)});
    EvidenceGrows(c, s.net, s'.net, r.view, n, d);
    SoundGrows(c, s.net, s'.net, i, r);
    forall m | m in s'.net && m.Commit? && m !in s.net
      ensures exists d :: Record(m.id, m.view, m.seqno, d) in s'.prepared
    {
      assert Record(m.id, m.view, m.seqno, d) in s'.prepared;
    }
    LocalKeepsInv(c, s, s', i);
  }

  lemma SendCommitStep(c: Config, s: State, i: Id, n: Seqno)
    requires c.Valid() && Inv(c, s) && Enabled(c, s, SendCommit(i, n))
    ensures Inv(c, Apply(c, s, SendCommit(i, n)))
  {
    CertificateIsEvidence(c, s, i, n);
    CommitSent(c, s, i, n, s.replicas[i].Prepares(c, n).pp.value);
  }

  /** Every step of a correct replica and every message of a faulty one keeps the invariant. */
  lemma StepKeepsInv(c: Config, s: State, t: Step)
    requires c.Valid() && Inv(c, s) && Enabled(c, s, t)
    ensures Inv(c, Apply(c, s, t))
  {
    match t
    case Forge(m) => ForgeStep(c, s, m);
    case SendPrePrepare(i, n, d) => SendPrePrepareStep(c, s, i, n, d);
    case SendPrepare(i, n) => SendPrepareStep(c, s, i, n);
    case SendCommit(i, n) => SendCommitStep(c, s, i, n);
    case ReceivePrePrepare(i, m, cached) => ReceivePrePrepareStep(c, s, i, m, cached);
    case CacheRequests(i, n) =>
      PreparesSound(c, s, i, n);
      QuietCertificate(c, s, i, n, s.replicas[i].Prepares(c, n).(ppComplete := true));
    case ReceivePrepare(i, m) => ReceivePrepareStep(c, s, i, m);
    case ReceiveCommit(i, m) => ReceiveCommitStep(c, s, i, m);
    case MarkStale(i, n) => MarkStaleStep(c, s, i, n);
    case ChangeView(i, v) => ForgetStep(c, s, i, Apply(c, s, t).replicas[i]);
    case Truncate(i, n) => ForgetStep(c, s, i, Apply(c, s, t).replicas[i]);
  }

  lemma ReceivePrePrepareStep(c: Config, s: State, i: Id, m: Message, cached: bool)
    requires Inv(c, s) && Enabled(c, s, ReceivePrePrepare(i, m, cached))
    ensures Inv(c, Apply(c, s, ReceivePrePrepare(i, m, cached)))
  {
    var r := s.replicas[i];
    var r' := Apply(c, s, ReceivePrePrepare(i, m, cached)).replicas[i];
    PreparesSound(c, s, i, m.seqno);
    assert SoundPrepares(c, s.net, i, r.view, m.seqno, r'.plog[m.seqno]);
    forall m' | m' in s.net && m'.id == i
      ensures Remembers(c, r', m')
    {
      assert Remembers(c, r, m');
    }
    QuietStep(c, s, i, r');
  }

  lemma ReceivePrepareStep(c: Config, s: State, i: Id, m: Message)
    requires Inv(c, s) && Enabled(c, s, ReceivePrepare(i, m))
    ensures Inv(c, Apply(c, s, ReceivePrepare(i, m)))
  {
    var p := s.replicas[i].Prepares(c, m.seqno);
    PreparesSound(c, s, i, m.seqno);
    AddValid(p.pc, m.id, m.digest);
    QuietCertificate(c, s, i, m.seqno, p.(pc := p.pc.Add(m.id, m.digest)));
  }

  lemma ReceiveCommitStep(c: Config, s: State, i: Id, m: Message)
    requires Inv(c, s) && Enabled(c, s, ReceiveCommit(i, m))
    ensures Inv(c, Apply(c, s, ReceiveCommit(i, m)))
  {
    var r := s.replicas[i];
    var r' := r.(clog := r.clog[m.seqno := r.Commits(c, m.seqno).Add(m.id, ())]);
    assert Sound(c, s.net, i, r);
    assert SoundCommits(c, s.net, r.view, m.seqno, r.Commits(c, m.seqno));
    assert SoundCommits(c, s.net, r.view, m.seqno, r'.clog[m.seqno]);
    forall m' | m' in s.net && m'.id == i
      ensures Remembers(c, r', m')
    {
      assert Remembers(c, r, m');
    }
    QuietStep(c, s, i, r');
  }

  lemma MarkStaleStep(c: Config, s: State, i: Id, n: Seqno)
    requires Inv(c, s) && Enabled(c, s, MarkStale(i, n))
    ensures Inv(c, Apply(c, s, MarkStale(i, n)))
  {
    var r := s.replicas[i];
    var p := r.Prepares(c, n);
    var q := p.MarkStale(i, i == c.Primary(r.view));
    var r' := r.(plog := r.plog[n := q]);
    PreparesSound(c, s, i, n);
    MarkStaleValid(p.pc, i);
    assert SoundPrepares(c, s.net, i, r.view, n, q);
    forall m | m in s.net && m.id == i
      ensures Remembers(c, r', m)
    {
      assert Remembers(c, r, m);
    }
    QuietStep(c, s, i, r');
  }

  /** Leaving a view or moving the window forgets only what no longer has to be remembered. */
  lemma ForgetStep(c: Config, s: State, i: Id, r': Replica)
    requires Inv(c, s) && c.Correct(i) && i in s.replicas
    requires
      var r := s.replicas[i];
      || (r.view < r'.view && r'.plog == map[] && r'.clog == map[])
      || (r.view == r'.view && r.stable < r'.stable
          && r'.plog == (map k | k in r.plog && r'.stable < k :: r.plog[k])
          && r'.clog == (map k | k in r.clog && r'.stable < k :: r.clog[k]))
    ensures Inv(c, Set(s, i, r'))
  {
    var r := s.replicas[i];
    assert Sound(c, s.net, i, r);
    forall m | m in s.net && m.id == i
      ensures Remembers(c, r', m)
    {
      assert Remembers(c, r, m);
    }
    QuietStep(c, s, i, r');
  }

  // ---------------------------------------------------------------- whole runs

  lemma {:induction false} RunInv(c: Config, run: seq<State>, steps: seq<Step>, k: nat)
    requires c.Valid() && IsRun(c, run, steps) && k < |run|
    ensures Inv(c, run[k])
  {
    if k > 0 {
      RunInv(c, run, steps, k - 1);
      StepKeepsInv(c, run[k - 1], steps[k - 1]);
    }
  }

  lemma {:induction false} RunGrows(c: Config, run: seq<State>, steps: seq<Step>, a: nat, b: nat)
    requires IsRun(c, run, steps) && a <= b < |run|
    ensures run[a].net <= run[b].net
    decreases b
  {
    if a < b {
      RunGrows(c, run, steps, a, b - 1);
      assert run[b] == Apply(c, run[b - 1], steps[b - 1]);
    }
  }

  /** Replica i has a complete prepared certificate for digest d in state s. */
  ghost predicate HasPrepared(c: Config, s: State, i: Id, v: View, n: Seqno, d: Digest) {
    && i in s.replicas && s.replicas[i].view == v
    && s.replicas[i].Prepares(c, n).IsComplete() && s.replicas[i].Prepares(c, n).pp == Some(d)
  }

  lemma PreparedIsEvidence(c: Config, run: seq<State>, steps: seq<Step>, a: nat, b: nat, i: Id, v: View, n: Seqno, d: Digest)
    requires c.Valid() && IsRun(c, run, steps) && a <= b < |run| && c.Correct(i) && HasPrepared(c, run[a], i, v, n, d)
    ensures Evidence(c, run[b].net, v, n, d)
  {
    RunInv(c, run, steps, a);
    PreparesSound(c, run[a], i, n);
    CompleteIsEvidence(c, run[a].net, i, v, n, run[a].replicas[i].Prepares(c, n));
    RunGrows(c, run, steps, a, b);
    EvidenceGrows(c, run[a].net, run[b].net, v, n, d);
  }

  /**
   Agreement: in every run, at any two moments, two correct replicas with complete prepared
   certificates for the same view and sequence number have the same digest.
   */
  lemma Agreement(c: Config, run: seq<State>, steps: seq<Step>, a: nat, b: nat,
                  i: Id, j: Id, v: View, n: Seqno, d: Digest, d': Digest)
    requires c.Valid() && IsRun(c, run, steps) && a < |run| && b < |run| && c.Correct(i) && c.Correct(j)
    requires HasPrepared(c, run[a], i, v, n, d) && HasPrepared(c, run[b], j, v, n, d')
    ensures d == d'
  {
    var last := |run| - 1;
    PreparedIsEvidence(c, run, steps, a, last, i, v, n, d);
    PreparedIsEvidence(c, run, steps, b, last, j, v, n, d');
    RunInv(c, run, steps, last);
    EvidenceAgrees(c, run[last].net, v, n, d, d');
  }

  /** Every record tells of a moment at which its replica had prepared its digest. */
  lemma {:induction false} RecordIsHistory(c: Config, run: seq<State>, steps: seq<Step>, b: nat, p: Record)
    requires IsRun(c, run, steps) && b < |run| && p in run[b].prepared
    ensures exists a :: 0 <= a <= b && HasPrepared(c, run[a], p.id, p.view, p.seqno, p.digest)
  {
    if b > 0 {
      assert run[b] == Apply(c, run[b - 1], steps[b - 1]);
      if p in run[b - 1].prepared {
        RecordIsHistory(c, run, steps, b - 1, p);
      } else {
        assert HasPrepared(c, run[b - 1], p.id, p.view, p.seqno, p.digest);
      }
    }
  }

  /** The correct replicas known to have prepared digest d. */
  ghost function PreparedBy(s: State, c: Config, v: View, n: Seqno, d: Digest): set<Id> {
    set k | k in c.Replicas() && Record(k, v, n, d) in s.prepared
  }

  lemma MostAreCorrect(c: Config, senders: set<Id>)
    requires c.Valid() && senders <= c.Replicas() && |senders| >= 2 * c.f + 1
    ensures |senders - c.faulty| >= c.f + 1
  {
  }

  /** 2f+1 commits come from f+1 correct replicas that prepared one and the same digest. */
  lemma CommitsAgree(c: Config, s: State, senders: set<Id>, v: View, n: Seqno) returns (d: Digest)
    requires c.Valid() && Inv(c, s) && senders <= c.Replicas() && |senders| >= 2 * c.f + 1
    requires forall k :: k in senders ==> Commit(k, v, n) in s.net
    ensures |PreparedBy(s, c, v, n, d)| >= c.f + 1 && Evidence(c, s.net, v, n, d)
  {
    MostAreCorrect(c, senders);
    var correct := senders - c.faulty;
    var k0 :| k0 in correct;
    var m0 := Commit(k0, v, n);
    d :| Record(m0.id, m0.view, m0.seqno, d) in s.prepared;
    forall k | k in correct
      ensures k in PreparedBy(s, c, v, n, d)
    {
      var m := Commit(k, v, n);
      var e :| Record(m.id, m.view, m.seqno, e) in s.prepared;
      EvidenceAgrees(c, s.net, v, n, d, e);
    }
    SubsetSize(correct, PreparedBy(s, c, v, n, d));
  }

  lemma CommitsSound(c: Config, s: State, i: Id, n: Seqno)
    requires Inv(c, s) && c.Correct(i) && i in s.replicas
    ensures SoundCommits(c, s.net, s.replicas[i].view, n, s.replicas[i].Commits(c, n))
  {
  }

  lemma RecordsCorrect(c: Config, s: State, v: View, n: Seqno, d: Digest)
    requires Inv(c, s)
    ensures forall k :: k in PreparedBy(s, c, v, n, d) ==> c.Correct(k)
  {
  }

  /** Once there is evidence for a digest, no correct replica ever prepares another one. */
  lemma EvidenceDecides(c: Config, run: seq<State>, steps: seq<Step>, a: nat, v: View, n: Seqno, d: Digest)
    requires c.Valid() && IsRun(c, run, steps) && a < |run| && Evidence(c, run[a].net, v, n, d)
    ensures forall b, j, d' :: 0 <= b < |run| && c.Correct(j) && HasPrepared(c, run[b], j, v, n, d') ==> d' == d
  {
    var last := |run| - 1;
    RunGrows(c, run, steps, a, last);
    EvidenceGrows(c, run[a].net, run[last].net, v, n, d);
    RunInv(c, run, steps, last);
    forall b, j, d' | 0 <= b < |run| && c.Correct(j) && HasPrepared(c, run[b], j, v, n, d')
      ensures d' == d
    {
      PreparedIsEvidence(c, run, steps, b, last, j, v, n, d');
      EvidenceAgrees(c, run[last].net, v, n, d, d');
    }
  }

  lemma CommittedAt(c: Config, s: State, i: Id, n: Seqno) returns (d: Digest)
    requires c.Valid() && Inv(c, s) && c.Correct(i) && i in s.replicas && s.replicas[i].Commits(c, n).IsComplete()
    ensures |PreparedBy(s, c, s.replicas[i].view, n, d)| >= c.f + 1
    ensures forall k :: k in PreparedBy(s, c, s.replicas[i].view, n, d) ==> c.Correct(k)
    ensures Evidence(c, s.net, s.replicas[i].view, n, d)
  {
    CommitsSound(c, s, i, n);
    var com := s.replicas[i].Commits(c, n);
    var senders := com.Senders(com.c.value);
    assert senders <= c.Replicas();
    d := CommitsAgree(c, s, senders, s.replicas[i].view, n);
    RecordsCorrect(c, s, s.replicas[i].view, n, d);
  }

  /**
   When a correct replica collects 2f+1 commits for a view and sequence number, there is one
   digest that at least f+1 correct replicas have prepared, and no correct replica has
   prepared or ever prepares another one there. Commits carry no digest, so this rests on Agreement.
   */
  lemma CommittedIsPrepared(c: Config, run: seq<State>, steps: seq<Step>, a: nat, s: State, i: Id, n: Seqno)
    returns (d: Digest)
    requires c.Valid() && IsRun(c, run, steps) && a < |run| && s == run[a] && c.Correct(i) && i in s.replicas
    requires s.replicas[i].Commits(c, n).IsComplete()
    ensures |PreparedBy(s, c, s.replicas[i].view, n, d)| >= c.f + 1
    ensures forall k :: k in PreparedBy(s, c, s.replicas[i].view, n, d) ==> c.Correct(k)
    ensures forall b, j, d' :: 0 <= b < |run| && c.Correct(j) && HasPrepared(c, run[b], j, s.replicas[i].view, n, d') ==> d' == d
  {
    RunInv(c, run, steps, a);
    d := CommittedAt(c, s, i, n);
    EvidenceDecides(c, run, steps, a, s.replicas[i].view, n, d);
  }
}
