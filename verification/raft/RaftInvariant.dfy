/**
 The inductive invariant of the cluster.

 Its centre is `Kept`: the leader log of a term t, up to an entry of t itself, is either contained
 in a log or can never gather a majority of acknowledgements (`Refused`).
 Every leader log of a later term keeps every earlier one in this sense.
 */
module RaftInvariant {
  import opened RaftTypes
  import opened RaftProtocol

  // ---- log matching ----

  /** The log up to and including position k is a prefix of the leader log of entry k's term. */
  ghost predicate EntryOk(h: History, log: Log, k: nat)
    requires k < |log|
  {
    && log[k].index == k + 1
    && log[k].term in h.leaderLog
    && log[..k + 1] <= h.leaderLog[log[k].term]
  }

  ghost predicate LogOk(h: History, log: Log) {
    forall k | 0 <= k < |log| :: EntryOk(h, log, k)
  }

  ghost predicate TermsUpTo(log: Log, term: int) {
    forall k | 0 <= k < |log| :: log[k].term <= term
  }

  // ---- acknowledgement, refusal, commitment ----

  /** Entry k of term t's leader log was created by that leader. */
  ghost predicate OwnEntry(h: History, t: nat, k: nat) {
    t in h.leaderLog && 1 <= k <= |h.leaderLog[t]| && h.leaderLog[t][k - 1].term == t
  }

  ghost predicate NoAck(h: History, n: NodeId, t: nat, k: nat) {
    forall m | (n, t, m) in h.acks :: m < k
  }

  ghost predicate Refusers(s: State, q: set<NodeId>, t: nat, k: nat) {
    forall n | n in q :: n in s.servers && s.servers[n].term > t && NoAck(s.h, n, t, k)
  }

  ghost predicate Refused(peers: set<NodeId>, s: State, t: nat, k: nat) {
    exists q :: Majority(q, peers) && Refusers(s, q, t, k)
  }

  ghost predicate Acked(h: History, n: NodeId, t: nat, k: nat) {
    exists m :: m >= k && (n, t, m) in h.acks
  }

  ghost predicate Accepters(h: History, q: set<NodeId>, t: nat, k: nat) {
    forall n | n in q :: Acked(h, n, t, k)
  }

  /** Index k is committed in term t: an entry of t that a majority acknowledged while in t. */
  ghost predicate Committed(peers: set<NodeId>, s: State, t: nat, k: nat) {
    OwnEntry(s.h, t, k) && exists q :: Majority(q, peers) && Accepters(s.h, q, t, k)
  }

  ghost predicate Kept(peers: set<NodeId>, s: State, log: Log, t: nat, k: nat) {
    OwnEntry(s.h, t, k) ==> s.h.leaderLog[t][..k] <= log || Refused(peers, s, t, k)
  }

  /** The first c entries of log are covered by an index committed in a term up to `term`. */
  ghost predicate CoveredBy(peers: set<NodeId>, s: State, log: Log, c: nat, t: nat, k: nat) {
    && Committed(peers, s, t, k)
    && c <= k && c <= |log|
    && log[..c] == s.h.leaderLog[t][..c]
  }

  ghost predicate CommitOk(peers: set<NodeId>, s: State, log: Log, c: nat, term: nat) {
    c == 0 || exists t: nat, k: nat :: t <= term && CoveredBy(peers, s, log, c, t, k)
  }

  // ---- the invariant ----

  ghost predicate Shape(peers: set<NodeId>, s: State) {
    && NOBODY !in peers && peers != {}
    && s.servers.Keys == peers
    && s.h.leader.Keys == s.h.leaderLog.Keys
  }

  /** A recorded vote is the only one of its node and term. */
  ghost predicate Votes(peers: set<NodeId>, s: State) {
    && (forall v: (NodeId, nat) | v in s.h.votes ::
          && v.0 in s.servers && s.h.votes[v] in peers
          && v.1 <= s.servers[v.0].term
          && (v.1 == s.servers[v.0].term ==> s.servers[v.0].votedFor == s.h.votes[v]))
    && (forall i | i in s.servers && s.servers[i].votedFor != NOBODY ::
          (i, s.servers[i].term) in s.h.votes && s.h.votes[(i, s.servers[i].term)] == s.servers[i].votedFor)
  }

  ghost predicate Candidacies(s: State) {
    && (forall v: (NodeId, nat) | v in s.h.votes :: (s.h.votes[v], v.1) in s.h.candidateLog)
    && (forall c: (NodeId, nat) | c in s.h.candidateLog ::
          c in s.h.votes && s.h.votes[c] == c.0 && c.1 >= 1
          && LogOk(s.h, s.h.candidateLog[c]) && TermsUpTo(s.h.candidateLog[c], c.1 - 1))
    && (forall i | i in s.servers && s.servers[i].role == Candidate ::
          (i, s.servers[i].term) in s.h.candidateLog && s.h.candidateLog[(i, s.servers[i].term)] == s.servers[i].log)
  }

  ghost predicate VoteMessages(s: State) {
    && (forall m | m in s.sent && m.VoteReq? && !m.pre ::
          && (m.src, m.term) in s.h.candidateLog
          && m.lastIndex == |s.h.candidateLog[(m.src, m.term)]|
          && m.lastTerm == LastTerm(s.h.candidateLog[(m.src, m.term)]))
    && (forall m | m in s.sent && m.VoteResp? && !m.pre && m.granted ::
          m.term == m.asked && (m.src, m.asked) in s.h.votes && s.h.votes[(m.src, m.asked)] == m.dst)
  }

  ghost predicate VotedFor(h: History, q: set<NodeId>, t: nat, c: NodeId) {
    forall n | n in q :: (n, t) in h.votes && h.votes[(n, t)] == c
  }

  ghost predicate Elected(peers: set<NodeId>, s: State, t: nat)
    requires t in s.h.leader && t in s.h.leaderLog
  {
    var c := s.h.leader[t];
    && c in s.servers && t <= s.servers[c].term
    && (exists q :: Majority(q, peers) && VotedFor(s.h, q, t, c))
    && (c, t) in s.h.candidateLog
    && s.h.candidateLog[(c, t)] <= s.h.leaderLog[t]
    && (s.servers[c].term == t ==> s.servers[c].role != Candidate)
  }

  ghost predicate Leaders(peers: set<NodeId>, s: State)
    requires s.h.leader.Keys == s.h.leaderLog.Keys
  {
    && (forall t {:trigger Elected(peers, s, t)} | t in s.h.leader :: Elected(peers, s, t))
    && (forall i | i in s.servers && s.servers[i].role == Leader ::
          && s.servers[i].term in s.h.leader
          && s.h.leader[s.servers[i].term] == i
          && s.h.leaderLog[s.servers[i].term] == s.servers[i].log)
  }

  ghost predicate Logs(s: State) {
    && (forall i | i in s.servers :: LogOk(s.h, s.servers[i].log) && TermsUpTo(s.servers[i].log, s.servers[i].term))
    && (forall t | t in s.h.leaderLog :: LogOk(s.h, s.h.leaderLog[t]) && TermsUpTo(s.h.leaderLog[t], t))
  }

  ghost predicate RequestOk(peers: set<NodeId>, s: State, m: Message)
    requires m.AppendReq?
  {
    && m.term in s.h.leaderLog && m.term in s.h.leader && s.h.leader[m.term] == m.src
    && m.prevIndex + |m.entries| <= |s.h.leaderLog[m.term]|
    && m.entries == s.h.leaderLog[m.term][m.prevIndex..m.prevIndex + |m.entries|]
    && m.prevTerm == TermAt(s.h.leaderLog[m.term], m.prevIndex)
    && CommitOk(peers, s, s.h.leaderLog[m.term], m.commit, m.term)
  }

  ghost predicate ReplyOk(s: State, m: Message)
    requires m.AppendResp?
  {
    && m.asked in s.h.leaderLog
    && m.prevIndex + m.count <= |s.h.leaderLog[m.asked]|
    && (m.success ==> m.term == m.asked && (m.src, m.asked, m.prevIndex + m.count) in s.h.acks)
  }

  ghost predicate AppendMessages(peers: set<NodeId>, s: State) {
    && (forall m {:trigger RequestOk(peers, s, m)} | m in s.sent && m.AppendReq? :: RequestOk(peers, s, m))
    && (forall m {:trigger ReplyOk(s, m)} | m in s.sent && m.AppendResp? :: ReplyOk(s, m))
  }

  ghost predicate Acks(s: State) {
    forall a: (NodeId, nat, nat) | a in s.h.acks ::
      && a.0 in s.servers && a.1 in s.h.leaderLog
      && a.1 <= s.servers[a.0].term && a.2 <= |s.h.leaderLog[a.1]|
  }

  ghost predicate LeaderIndexes(s: State) {
    forall i | i in s.servers && s.servers[i].role == Leader ::
      var me := s.servers[i];
      && (forall p | p in s.servers && p != i ::
            && 1 <= NextOf(me, p) <= |me.log| + 1
            && (MatchOf(me, p) > 0 ==> (p, me.term, MatchOf(me, p)) in s.h.acks))
      && (LastTerm(me.log) == me.term ==> (i, me.term, |me.log|) in s.h.acks)
  }

  ghost predicate AckersKeep(peers: set<NodeId>, s: State) {
    forall a: (NodeId, nat, nat), k: nat | a in s.h.acks && a.0 in s.servers && 1 <= k <= a.2 :: Kept(peers, s, s.servers[a.0].log, a.1, k)
  }

  /** What a voter had acknowledged in earlier terms, the candidate it voted for keeps. */
  ghost predicate CandidatesKeep(peers: set<NodeId>, s: State) {
    forall v: (NodeId, nat), a: (NodeId, nat, nat), k: nat | v in s.h.votes && (s.h.votes[v], v.1) in s.h.candidateLog
                     && a in s.h.acks && a.0 == v.0 && a.1 < v.1 && 1 <= k <= a.2 ::
      Kept(peers, s, s.h.candidateLog[(s.h.votes[v], v.1)], a.1, k)
  }

  ghost predicate LeadersKeep(peers: set<NodeId>, s: State) {
    forall t, t', k: nat | t in s.h.leaderLog && t' in s.h.leaderLog && t < t' ::
      Kept(peers, s, s.h.leaderLog[t'], t, k)
  }

  ghost predicate CommitsAt(peers: set<NodeId>, s: State, me: Server) {
    && me.applied == me.commit <= |me.log|
    && me.handed == me.log[..me.applied]
    && CommitOk(peers, s, me.log, me.commit, me.term)
  }

  ghost predicate Commits(peers: set<NodeId>, s: State) {
    forall i {:trigger CommitsAt(peers, s, s.servers[i])} | i in s.servers :: CommitsAt(peers, s, s.servers[i])
  }

  ghost predicate Inv(peers: set<NodeId>, s: State) {
    && Shape(peers, s)
    && Votes(peers, s)
    && Candidacies(s)
    && VoteMessages(s)
    && Leaders(peers, s)
    && Logs(s)
    && AppendMessages(peers, s)
    && Acks(s)
    && LeaderIndexes(s)
    && AckersKeep(peers, s)
    && CandidatesKeep(peers, s)
    && LeadersKeep(peers, s)
    && Commits(peers, s)
  }

  lemma InitInv(peers: set<NodeId>, s: State)
    requires Init(peers, s)
    ensures Inv(peers, s)
  {
  }

  // ---- what any step preserves of the history ----

  /** s' is some steps after s: terms and histories only grow. */
  ghost predicate Later(s: State, s': State) {
    && s.servers.Keys == s'.servers.Keys
    && (forall i | i in s.servers :: s.servers[i].term <= s'.servers[i].term)
    && (forall t | t in s.h.leaderLog :: t in s'.h.leaderLog && s.h.leaderLog[t] <= s'.h.leaderLog[t])
    && (forall t | t in s.h.leader :: t in s'.h.leader && s'.h.leader[t] == s.h.leader[t])
    && (forall c: (NodeId, nat) | c in s.h.candidateLog ::
          c in s'.h.candidateLog && s'.h.candidateLog[c] == s.h.candidateLog[c])
    && (forall v: (NodeId, nat) | v in s.h.votes :: v in s'.h.votes && s'.h.votes[v] == s.h.votes[v])
    && s.h.acks <= s'.h.acks
  }

  /** One step: besides, a new acknowledgement is of the acknowledging node's new term. */
  ghost predicate Evolves(s: State, s': State) {
    && Later(s, s')
    && (forall a: (NodeId, nat, nat) | a in s'.h.acks && a !in s.h.acks ::
          a.0 in s.servers && a.1 == s'.servers[a.0].term)
  }

  lemma LogOkStable(s: State, s': State, log: Log)
    requires Later(s, s') && LogOk(s.h, log)
    ensures LogOk(s'.h, log)
  {
    forall k | 0 <= k < |log| ensures EntryOk(s'.h, log, k) {
      assert EntryOk(s.h, log, k);
    }
  }

  lemma RefusedStable(peers: set<NodeId>, s: State, s': State, t: nat, k: nat)
    requires Evolves(s, s') && Refused(peers, s, t, k)
    ensures Refused(peers, s', t, k)
  {
    var q :| Majority(q, peers) && Refusers(s, q, t, k);
    forall n | n in q ensures n in s'.servers && s'.servers[n].term > t && NoAck(s'.h, n, t, k) {
      assert NoAck(s.h, n, t, k);
      forall m | (n, t, m) in s'.h.acks ensures m < k {
        assert (n, t, m) in s.h.acks;
      }
    }
    assert Refusers(s', q, t, k);
  }

  /** Kept survives a step that keeps the log's relevant prefix and adds no own entry at k. */
  lemma KeptStable(peers: set<NodeId>, s: State, s': State, log: Log, log': Log, t: nat, k: nat)
    requires Evolves(s, s') && Kept(peers, s, log, t, k)
    requires OwnEntry(s'.h, t, k) ==> OwnEntry(s.h, t, k)
    requires OwnEntry(s.h, t, k) && s.h.leaderLog[t][..k] <= log ==> s.h.leaderLog[t][..k] <= log'
    ensures Kept(peers, s', log', t, k)
  {
    if OwnEntry(s'.h, t, k) {
      assert s'.h.leaderLog[t][..k] == s.h.leaderLog[t][..k];
      if Refused(peers, s, t, k) {
        RefusedStable(peers, s, s', t, k);
      }
    }
  }

  lemma CommittedStable(peers: set<NodeId>, s: State, s': State, t: nat, k: nat)
    requires Later(s, s') && Committed(peers, s, t, k)
    ensures Committed(peers, s', t, k)
    ensures s'.h.leaderLog[t][..k] == s.h.leaderLog[t][..k]
  {
    var q :| Majority(q, peers) && Accepters(s.h, q, t, k);
    forall n | n in q ensures Acked(s'.h, n, t, k) {
      assert Acked(s.h, n, t, k);
    }
    assert Accepters(s'.h, q, t, k);
  }

  lemma CommitOkStable(peers: set<NodeId>, s: State, s': State, log: Log, log': Log, c: nat, term: nat, term': nat)
    requires Later(s, s') && CommitOk(peers, s, log, c, term) && term <= term'
    requires c <= |log| ==> c <= |log'| && log[..c] == log'[..c]
    ensures CommitOk(peers, s', log', c, term')
  {
    if c != 0 {
      var t: nat, k: nat :| t <= term && CoveredBy(peers, s, log, c, t, k);
      CommittedStable(peers, s, s', t, k);
      assert s.h.leaderLog[t][..c] == s.h.leaderLog[t][..k][..c];
      assert s'.h.leaderLog[t][..c] == s'.h.leaderLog[t][..k][..c];
      assert CoveredBy(peers, s', log', c, t, k);
    }
  }

  // ---- what the invariant says about logs ----

  /** Log matching: one index and term fixes everything up to it. */
  lemma Matching(h: History, a: Log, b: Log, k: nat)
    requires LogOk(h, a) && LogOk(h, b)
    requires k < |a| && k < |b| && a[k].term == b[k].term
    ensures a[..k + 1] == b[..k + 1]
  {
    assert EntryOk(h, a, k) && EntryOk(h, b, k);
    assert a[..k + 1] == h.leaderLog[a[k].term][..k + 1];
    assert b[..k + 1] == h.leaderLog[a[k].term][..k + 1];
  }

  lemma AckedNotNoAck(h: History, n: NodeId, t: nat, k: nat)
    requires Acked(h, n, t, k)
    ensures !NoAck(h, n, t, k)
  {
  }

  lemma CommittedNotRefused(peers: set<NodeId>, s: State, t: nat, k: nat)
    requires Committed(peers, s, t, k)
    ensures !Refused(peers, s, t, k)
  {
    if Refused(peers, s, t, k) {
      var a :| Majority(a, peers) && Accepters(s.h, a, t, k);
      var b :| Majority(b, peers) && Refusers(s, b, t, k);
      var n := MajoritiesMeet(a, b, peers);
      AckedNotNoAck(s.h, n, t, k);
    }
  }

  /** Leader completeness: the leader log of every later term holds what was committed. */
  lemma LeaderCompleteness(peers: set<NodeId>, s: State, t: nat, k: nat, t': nat)
    requires LeadersKeep(peers, s) && Committed(peers, s, t, k)
    requires t <= t' && t' in s.h.leaderLog
    ensures s.h.leaderLog[t][..k] <= s.h.leaderLog[t']
  {
    if t < t' {
      assert Kept(peers, s, s.h.leaderLog[t'], t, k);
      CommittedNotRefused(peers, s, t, k);
    }
  }

  /** Terms never decrease along a log. */
  lemma TermsSorted(s: State, log: Log, i: nat, k: nat)
    requires Logs(s) && LogOk(s.h, log) && i <= k < |log|
    ensures log[i].term <= log[k].term
  {
    assert EntryOk(s.h, log, k);
    var l := s.h.leaderLog[log[k].term];
    assert log[i] == log[..k + 1][i] == l[i];
    assert TermsUpTo(l, log[k].term);
  }
}
