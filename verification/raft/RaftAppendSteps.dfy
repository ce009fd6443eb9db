/**
 The steps of log replication: a node receiving AppendEntries, and a leader receiving the reply.
 */
module RaftAppendSteps {
  import opened RaftTypes
  import opened RaftProtocol
  import opened RaftInvariant
  import opened RaftQuietSteps
  import opened RaftLeaderSteps

  // ---- merging entries of a leader log ----

  /** The log itself, or l cut at n where log does not already hold that much of l. */
  function MergedLog(log: Log, l: Log, n: nat): Log
    requires n <= |l|
  {
    if n <= |log| && log[..n] == l[..n] then log else l[..n]
  }

  ghost predicate Merged(log: Log, log': Log, l: Log, n: nat) {
    n <= |l| && log' == MergedLog(log, l, n)
  }

  /**
   Merging a slice of a leader log l into a log that agrees with l before the slice: nothing
   changes when the log already holds l up to the end of the slice, else the result is exactly
   that part of l.
   */
  lemma {:induction false} MergeResult(h: History, log: Log, l: Log, prev: nat, entries: seq<LogEntry>)
    requires LogOk(h, log) && LogOk(h, l)
    requires prev <= |log| && prev + |entries| <= |l|
    requires log[..prev] == l[..prev] && entries == l[prev..prev + |entries|]
    ensures Merge(log, prev, entries) == MergedLog(log, l, prev + |entries|)
    decreases |entries|
  {
    if entries == [] {
    } else {
      var n := prev + |entries|;
      assert entries[0] == l[prev];
      assert entries[1..] == l[prev + 1..n];
      if prev < |log| && log[prev].term == entries[0].term {
        Matching(h, log, l, prev);
        MergeResult(h, log, l, prev + 1, entries[1..]);
      } else {
        var cut := log[..prev] + [entries[0]];
        assert cut == l[..prev + 1];
        PrefixOk(h, l, prev + 1);
        MergeResult(h, cut, l, prev + 1, entries[1..]);
        if prev < |log| {
          assert n <= |log| ==> log[..n][prev] != l[..n][prev];
        }
        assert n == prev + 1 ==> cut[..n] == l[..n];
      }
    }
  }

  lemma PrefixOk(h: History, l: Log, n: nat)
    requires LogOk(h, l) && n <= |l|
    ensures LogOk(h, l[..n])
  {
    forall k | 0 <= k < n ensures EntryOk(h, l[..n], k) {
      assert EntryOk(h, l, k);
      assert l[..n][..k + 1] == l[..k + 1];
    }
  }

  /** The accepted entries, given that the request's previous entry was found. */
  lemma AcceptedLog(h: History, log: Log, l: Log, prevIndex: nat, prevTerm: nat, entries: seq<LogEntry>)
    requires LogOk(h, log) && LogOk(h, l)
    requires prevIndex + |entries| <= |l| && entries == l[prevIndex..prevIndex + |entries|]
    requires prevTerm == TermAt(l, prevIndex) && PrevMatches(log, prevIndex, prevTerm)
    ensures prevIndex <= |log|
    ensures Merge(log, prevIndex, entries) == MergedLog(log, l, prevIndex + |entries|)
  {
    if prevIndex > 0 {
      Matching(h, log, l, prevIndex - 1);
    }
    assert log[..prevIndex] == l[..prevIndex];
    MergeResult(h, log, l, prevIndex, entries);
  }

  lemma MergedKeepsPrefix(log: Log, log': Log, l: Log, n: nat, p: Log)
    requires Merged(log, log', l, n) && p <= log && p <= l
    ensures p <= log'
  {
    if n <= |p| {
      assert log[..n] == p[..n] && l[..n] == p[..n];
    }
  }

  lemma MergedHolds(log: Log, log': Log, l: Log, n: nat)
    requires Merged(log, log', l, n)
    ensures n <= |log'| && log'[..n] == l[..n]
  {
    assert l[..n][..n] == l[..n];
  }

  // ---- receiving AppendEntries ----

  /** An accepted request of term t, whose leader log covers it up to n. */
  ghost predicate Accepting(s: State, s': State, i: NodeId, t: nat, n: nat) {
    && i in s.servers && s.servers[i].term <= t && t in s.h.leaderLog && n <= |s.h.leaderLog[t]|
    && s'.servers.Keys == s.servers.Keys
    && (forall j | j in s.servers && j != i :: s'.servers[j] == s.servers[j])
    && s'.servers[i].role == Follower && s'.servers[i].term == t
    && TermChange(s.servers[i], s'.servers[i])
    && s'.h == WithAck(s.h, i, t, n)
  }

  ghost predicate Merging(s: State, s': State, i: NodeId, t: nat, n: nat)
    requires i in s.servers && i in s'.servers && t in s.h.leaderLog
  {
    Merged(s.servers[i].log, s'.servers[i].log, s.h.leaderLog[t], n)
  }

  lemma AcceptingEvolves(peers: set<NodeId>, s: State, s': State, i: NodeId, t: nat, n: nat)
    requires Shape(peers, s) && Accepting(s, s', i, t, n)
    ensures Evolves(s, s') && Shape(peers, s')
  {
  }

  lemma AcceptingVotes(peers: set<NodeId>, s: State, s': State, i: NodeId, t: nat, n: nat)
    requires Votes(peers, s) && Accepting(s, s', i, t, n)
    ensures Votes(peers, s')
  {
    forall j | j in s'.servers && s'.servers[j].votedFor != NOBODY
      ensures (j, s'.servers[j].term) in s'.h.votes && s'.h.votes[(j, s'.servers[j].term)] == s'.servers[j].votedFor
    {
      if j != i {
        assert s'.servers[j] == s.servers[j];
      }
    }
  }

  lemma AcceptingAcks(s: State, s': State, i: NodeId, t: nat, n: nat)
    requires Acks(s) && Accepting(s, s', i, t, n) && Evolves(s, s')
    ensures Acks(s')
  {
  }

  lemma AcceptingCandidacies(s: State, s': State, i: NodeId, t: nat, n: nat)
    requires Candidacies(s) && Accepting(s, s', i, t, n) && Evolves(s, s')
    ensures Candidacies(s')
  {
    CandidateLogsStable(s, s');
  }

  lemma AcceptingLogs(s: State, s': State, i: NodeId, t: nat, n: nat)
    requires Logs(s) && Accepting(s, s', i, t, n) && Evolves(s, s')
    requires Merging(s, s', i, t, n)
    ensures Logs(s')
  {
    var l := s.h.leaderLog[t];
    PrefixOk(s.h, l, n);
    forall j | j in s'.servers
      ensures LogOk(s'.h, s'.servers[j].log) && TermsUpTo(s'.servers[j].log, s'.servers[j].term)
    {
      assert LogOk(s.h, s.servers[j].log) && TermsUpTo(s.servers[j].log, s.servers[j].term);
      assert TermsUpTo(l, t);
      LogOkStable(s, s', s'.servers[j].log);
    }
    forall u | u in s'.h.leaderLog ensures LogOk(s'.h, s'.h.leaderLog[u]) {
      LogOkStable(s, s', s.h.leaderLog[u]);
    }
  }

  lemma AcceptingElected(peers: set<NodeId>, s: State, s': State, i: NodeId, t: nat, n: nat)
    requires Shape(peers, s) && Leaders(peers, s) && Accepting(s, s', i, t, n) && Evolves(s, s')
    ensures forall u | u in s'.h.leader :: u in s'.h.leaderLog && Elected(peers, s', u)
  {
    forall u | u in s'.h.leader ensures u in s'.h.leaderLog && Elected(peers, s', u) {
      assert Elected(peers, s, u);
      ElectedStable(peers, s, s', u);
    }
  }

  lemma AcceptingLeaders(peers: set<NodeId>, s: State, s': State, i: NodeId, t: nat, n: nat)
    requires Shape(peers, s) && Shape(peers, s') && Accepting(s, s', i, t, n)
    requires forall j | j in s.servers && s.servers[j].role == Leader :: LeadsItsTerm(s, j)
    requires forall u | u in s'.h.leader :: u in s'.h.leaderLog && Elected(peers, s', u)
    ensures Leaders(peers, s')
  {
    forall j | j in s'.servers && s'.servers[j].role == Leader
      ensures s'.servers[j].term in s'.h.leader && s'.h.leader[s'.servers[j].term] == j
              && s'.h.leaderLog[s'.servers[j].term] == s'.servers[j].log
    {
      assert j != i && s'.servers[j] == s.servers[j] && LeadsItsTerm(s, j);
    }
  }

  lemma AcceptingIndexes(s: State, s': State, i: NodeId, t: nat, n: nat)
    requires LeaderIndexes(s) && Accepting(s, s', i, t, n)
    ensures LeaderIndexes(s')
  {
  }

  /** What a node holds of an earlier leader log survives the merge, or is refused. */
  lemma MergeKeeps(peers: set<NodeId>, s: State, log: Log, log': Log, t: nat, n: nat, u: nat, k: nat)
    requires LeadersKeep(peers, s) && t in s.h.leaderLog && Merged(log, log', s.h.leaderLog[t], n)
    requires u <= t && Kept(peers, s, log, u, k)
    ensures Kept(peers, s, log', u, k)
  {
    if OwnEntry(s.h, u, k) && !Refused(peers, s, u, k) {
      if u < t {
        assert Kept(peers, s, s.h.leaderLog[t], u, k);
      }
      MergedKeepsPrefix(log, log', s.h.leaderLog[t], n, s.h.leaderLog[u][..k]);
    }
  }

  lemma AcceptingAckersKeep(peers: set<NodeId>, s: State, s': State, i: NodeId, t: nat, n: nat)
    requires AckersKeep(peers, s) && LeadersKeep(peers, s) && Acks(s)
    requires Accepting(s, s', i, t, n) && Evolves(s, s')
    requires Merging(s, s', i, t, n)
    ensures AckersKeep(peers, s')
  {
    var log, log' := s.servers[i].log, s'.servers[i].log;
    forall a: (NodeId, nat, nat), k: nat | a in s'.h.acks && a.0 in s'.servers && 1 <= k <= a.2
      ensures Kept(peers, s', s'.servers[a.0].log, a.1, k)
    {
      if a !in s.h.acks {
        MergedHolds(log, log', s.h.leaderLog[t], n);
        assert log'[..n][..k] == log'[..k] && s.h.leaderLog[t][..n][..k] == s.h.leaderLog[t][..k];
      } else {
        assert Kept(peers, s, s.servers[a.0].log, a.1, k);
        if a.0 == i {
          assert a.1 <= s.servers[a.0].term;
          MergeKeeps(peers, s, log, log', t, n, a.1, k);
        }
        KeptStable(peers, s, s', s'.servers[a.0].log, s'.servers[a.0].log, a.1, k);
      }
    }
  }

  lemma AcceptingCandidatesKeep(peers: set<NodeId>, s: State, s': State, i: NodeId, t: nat, n: nat)
    requires CandidatesKeep(peers, s) && Votes(peers, s) && Accepting(s, s', i, t, n) && Evolves(s, s')
    ensures CandidatesKeep(peers, s')
  {
    forall v: (NodeId, nat), a: (NodeId, nat, nat), k: nat |
      v in s'.h.votes && (s'.h.votes[v], v.1) in s'.h.candidateLog
      && a in s'.h.acks && a.0 == v.0 && a.1 < v.1 && 1 <= k <= a.2
      ensures Kept(peers, s', s'.h.candidateLog[(s'.h.votes[v], v.1)], a.1, k)
    {
      assert v.1 <= s.servers[v.0].term;
      assert a in s.h.acks;
      var log := s.h.candidateLog[(s.h.votes[v], v.1)];
      assert Kept(peers, s, log, a.1, k);
      KeptStable(peers, s, s', log, log, a.1, k);
    }
  }

  lemma AcceptingLeadersKeep(peers: set<NodeId>, s: State, s': State, i: NodeId, t: nat, n: nat)
    requires LeadersKeep(peers, s) && Accepting(s, s', i, t, n) && Evolves(s, s')
    ensures LeadersKeep(peers, s')
  {
    forall u, u', k: nat | u in s'.h.leaderLog && u' in s'.h.leaderLog && u < u'
      ensures Kept(peers, s', s'.h.leaderLog[u'], u, k)
    {
      assert Kept(peers, s, s.h.leaderLog[u'], u, k);
      KeptStable(peers, s, s', s.h.leaderLog[u'], s.h.leaderLog[u'], u, k);
    }
  }

  // ---- the commit index of the receiving node ----

  /** Whatever is committed in a log is in the merged log too. */
  lemma MergeKeepsCommitted(peers: set<NodeId>, s: State, log: Log, log': Log, term: nat, t: nat, n: nat, c: nat)
    requires LeadersKeep(peers, s) && t in s.h.leaderLog && Merged(log, log', s.h.leaderLog[t], n)
    requires term <= t && c <= |log| && CommitOk(peers, s, log, c, term)
    ensures c <= |log'| && log'[..c] == log[..c] && CommitOk(peers, s, log', c, t)
  {
    if c != 0 {
      var u: nat, k: nat :| u <= term && CoveredBy(peers, s, log, c, u, k);
      LeaderCompleteness(peers, s, u, k, t);
      var p := log[..c];
      assert s.h.leaderLog[u][..k][..c] == p;
      assert p <= s.h.leaderLog[t];
      MergedKeepsPrefix(log, log', s.h.leaderLog[t], n, p);
      assert CoveredBy(peers, s, log', c, u, k);
    }
  }

  /** The new bound min(commit, n) is committed because the merged log holds the leader log up to n. */
  lemma NewBoundCommitted(peers: set<NodeId>, s: State, log: Log, log': Log, t: nat, n: nat, commit: nat)
    requires t in s.h.leaderLog && Merged(log, log', s.h.leaderLog[t], n)
    requires CommitOk(peers, s, s.h.leaderLog[t], commit, t)
    ensures Min(commit, n) <= |log'| && CommitOk(peers, s, log', Min(commit, n), t)
  {
    var c := Min(commit, n);
    var l := s.h.leaderLog[t];
    MergedHolds(log, log', l, n);
    CommitCut(peers, s, l, commit, t, c);
    if c != 0 {
      var u: nat, k: nat :| u <= t && CoveredBy(peers, s, l, c, u, k);
      assert log'[..c] == log'[..n][..c] == l[..n][..c] == l[..c];
      assert CoveredBy(peers, s, log', c, u, k);
    }
  }

  lemma CollectOk(me: Server, me': Server)
    requires me.applied <= me.commit <= |me.log| && me.handed == me.log[..me.applied]
    requires me' == Collect(me)
    ensures me'.log == me.log && me'.commit == me.commit && me'.term == me.term && me'.role == me.role
    ensures me'.applied == me'.commit && me'.handed == me'.log[..me'.applied]
  {
  }

  /** The state of the node that accepts a request, before and after it collects. */
  lemma AcceptedCommits(peers: set<NodeId>, s: State, me: Server, mid: Server, me': Server, t: nat, n: nat, commit: nat)
    requires LeadersKeep(peers, s) && t in s.h.leaderLog && CommitsAt(peers, s, me) && me.term <= t
    requires CommitOk(peers, s, s.h.leaderLog[t], commit, t)
    requires Merged(me.log, mid.log, s.h.leaderLog[t], n) && mid.term == t
    requires mid.applied == me.applied && mid.handed == me.handed
    requires mid.commit == Max(me.commit, Min(commit, n))
    requires me' == Collect(mid)
    ensures CommitsAt(peers, s, me')
  {
    MergeKeepsCommitted(peers, s, me.log, mid.log, me.term, t, n, me.commit);
    NewBoundCommitted(peers, s, me.log, mid.log, t, n, commit);
    assert mid.log[..me.applied] == mid.log[..me.commit][..me.applied] == me.log[..me.commit][..me.applied];
    CollectOk(mid, me');
  }

  lemma AcceptingCommits(peers: set<NodeId>, s: State, s': State, i: NodeId, t: nat, n: nat)
    requires Commits(peers, s) && Accepting(s, s', i, t, n) && Evolves(s, s')
    requires CommitsAt(peers, s, s'.servers[i])
    ensures Commits(peers, s')
  {
    OthersCommit(peers, s, s', i);
    var me := s'.servers[i];
    CommitOkStable(peers, s, s', me.log, me.log, me.commit, me.term, me.term);
  }

  // ---- the step ----

  lemma RequestFacts(peers: set<NodeId>, s: State, m: Message)
    requires AppendMessages(peers, s) && m in s.sent && m.AppendReq?
    ensures RequestOk(peers, s, m)
  {
  }

  ghost predicate Accepts(s: State, m: Message) {
    && m.AppendReq? && m.dst in s.servers
    && OnAppendRequest(s.servers[m.dst], m.term, m.prevIndex, m.prevTerm, m.entries, m.commit).2
  }

  /** The receiver of an accepted request, before it hands out what became committed. */
  function AcceptedServer(me: Server, m: Message): Server
    requires m.AppendReq? && m.prevIndex <= |me.log|
  {
    AdoptTerm(me, m.term).(
    role := Follower,
    log := Merge(me.log, m.prevIndex, m.entries),
    commit := Max(me.commit, Min(m.commit, m.prevIndex + |m.entries|)))
  }

  function SuccessReply(m: Message): Message
    requires m.AppendReq?
  {
    AppendResp(m.dst, m.src, m.term, m.prevIndex, |m.entries|, m.term, true)
  }

  ghost predicate Accepted(s: State, s': State, m: Message) {
    && m.AppendReq? && m.dst in s.servers
    && var me := s.servers[m.dst];
    && me.term <= m.term
    && m.prevIndex <= |me.log| && PrevMatches(me.log, m.prevIndex, m.prevTerm)
    && s' == State(s.servers[m.dst := Collect(AcceptedServer(me, m))],
                   s.sent + {SuccessReply(m)},
                   WithAck(s.h, m.dst, m.term, m.prevIndex + |m.entries|))
  }

  lemma AcceptsAccepted(s: State, s': State, m: Message)
    requires DoReceiveAppendReq(s, s', m) && Accepts(s, m)
    ensures Accepted(s, s', m)
  {
  }

  lemma ReceiveAppendReqInv(peers: set<NodeId>, s: State, s': State, m: Message)
    requires Inv(peers, s) && DoReceiveAppendReq(s, s', m)
    ensures Inv(peers, s') && Evolves(s, s')
  {
    RequestFacts(peers, s, m);
    if Accepts(s, m) {
      AcceptsAccepted(s, s', m);
      AcceptedInv(peers, s, s', m);
    } else {
      RejectedInv(peers, s, s', m);
    }
  }

  lemma AcceptedInv(peers: set<NodeId>, s: State, s': State, m: Message)
    requires Inv(peers, s) && Accepted(s, s', m) && RequestOk(peers, s, m)
    ensures Inv(peers, s') && Evolves(s, s')
  {
    AcceptedAccepting(s, s', m, m.prevIndex + |m.entries|);
    AcceptParts(peers, s, s', m);
    AcceptInv(peers, s, s', m.dst, m.term, m.prevIndex + |m.entries|);
  }

  lemma AcceptParts(peers: set<NodeId>, s: State, s': State, m: Message)
    requires Inv(peers, s) && Accepted(s, s', m) && RequestOk(peers, s, m)
    requires Accepting(s, s', m.dst, m.term, m.prevIndex + |m.entries|)
    ensures AppendMessages(peers, s') && VoteMessages(s') && Logs(s') && AckersKeep(peers, s') && Commits(peers, s')
  {
    ReceiverFacts(s, m.dst, m.term);
    AcceptLogs(peers, s, s', m);
    AcceptCommits(peers, s, s', m);
    AcceptMessages(peers, s, s', m);
  }

  lemma AcceptedAccepting(s: State, s': State, m: Message, n: nat)
    requires Accepted(s, s', m) && n == m.prevIndex + |m.entries|
    requires m.term in s.h.leaderLog && n <= |s.h.leaderLog[m.term]|
    ensures Accepting(s, s', m.dst, m.term, n)
  {
  }

  lemma RejectedInv(peers: set<NodeId>, s: State, s': State, m: Message)
    requires Inv(peers, s) && DoReceiveAppendReq(s, s', m) && RequestOk(peers, s, m) && !Accepts(s, m)
    ensures Inv(peers, s') && Evolves(s, s')
  {
    RejectCalm(peers, s, s', m);
    QuietMessages(peers, s, s');
    QuietIndexes(s, s');
    QuietLeaders(peers, s, s');
    QuietCommits(peers, s, s');
    CalmInv(peers, s, s');
  }

  lemma ReceiverFacts(s: State, i: NodeId, t: nat)
    requires Logs(s) && i in s.servers && t in s.h.leaderLog
    ensures LogOk(s.h, s.servers[i].log) && LogOk(s.h, s.h.leaderLog[t])
  {
  }

  lemma RejectCalm(peers: set<NodeId>, s: State, s': State, m: Message)
    requires DoReceiveAppendReq(s, s', m) && RequestOk(peers, s, m) && !Accepts(s, m)
    ensures Calm(s, s') && SameCommits(s, s')
    ensures forall j | j in s.servers :: NoNewLeader(s.servers[j], s'.servers[j])
    ensures forall m' | m' in s'.sent && m' !in s.sent :: m'.AppendResp? && ReplyOk(s, m')
  {
    RejectFrame(s.servers[m.dst], m);
    var me := s'.servers[m.dst];
    assert TermChange(s.servers[m.dst], me) && NoNewLeader(s.servers[m.dst], me);
  }

  lemma RejectFrame(me: Server, m: Message)
    requires m.AppendReq? && !OnAppendRequest(me, m.term, m.prevIndex, m.prevTerm, m.entries, m.commit).2
    ensures var me' := OnAppendRequest(me, m.term, m.prevIndex, m.prevTerm, m.entries, m.commit).0;
            me' == me || me' == AdoptTerm(me, m.term).(role := Follower)
  {
  }

  /** What depends on the receiver's log is kept. */
  lemma AcceptLogs(peers: set<NodeId>, s: State, s': State, m: Message)
    requires Shape(peers, s) && Logs(s) && Acks(s) && AckersKeep(peers, s) && LeadersKeep(peers, s)
    requires Accepted(s, s', m) && RequestOk(peers, s, m)
    requires LogOk(s.h, s.servers[m.dst].log) && LogOk(s.h, s.h.leaderLog[m.term])
    requires Accepting(s, s', m.dst, m.term, m.prevIndex + |m.entries|)
    ensures Logs(s') && AckersKeep(peers, s')
  {
    var n := m.prevIndex + |m.entries|;
    AcceptMerge(peers, s, s', m);
    AcceptingEvolves(peers, s, s', m.dst, m.term, n);
    AcceptingLogs(s, s', m.dst, m.term, n);
    AcceptingAckersKeep(peers, s, s', m.dst, m.term, n);
  }

  lemma AcceptCommits(peers: set<NodeId>, s: State, s': State, m: Message)
    requires Shape(peers, s) && LeadersKeep(peers, s) && Commits(peers, s)
    requires Accepted(s, s', m) && RequestOk(peers, s, m)
    requires LogOk(s.h, s.servers[m.dst].log) && LogOk(s.h, s.h.leaderLog[m.term])
    requires Accepting(s, s', m.dst, m.term, m.prevIndex + |m.entries|)
    ensures Commits(peers, s')
  {
    var me := s.servers[m.dst];
    var n := m.prevIndex + |m.entries|;
    assert CommitsAt(peers, s, me);
    AcceptMerge(peers, s, s', m);
    AcceptedCommits(peers, s, me, AcceptedServer(me, m), s'.servers[m.dst], m.term, n, m.commit);
    AcceptingEvolves(peers, s, s', m.dst, m.term, n);
    AcceptingCommits(peers, s, s', m.dst, m.term, n);
  }

  lemma AcceptMerge(peers: set<NodeId>, s: State, s': State, m: Message)
    requires Accepted(s, s', m) && RequestOk(peers, s, m)
    requires LogOk(s.h, s.servers[m.dst].log) && LogOk(s.h, s.h.leaderLog[m.term])
    ensures Merged(s.servers[m.dst].log, AcceptedServer(s.servers[m.dst], m).log, s.h.leaderLog[m.term],
                   m.prevIndex + |m.entries|)
    ensures Merging(s, s', m.dst, m.term, m.prevIndex + |m.entries|)
  {
    AcceptedLog(s.h, s.servers[m.dst].log, s.h.leaderLog[m.term], m.prevIndex, m.prevTerm, m.entries);
  }

  lemma AcceptMessages(peers: set<NodeId>, s: State, s': State, m: Message)
    requires AppendMessages(peers, s) && VoteMessages(s) && Shape(peers, s)
    requires Accepted(s, s', m) && RequestOk(peers, s, m)
    requires Accepting(s, s', m.dst, m.term, m.prevIndex + |m.entries|)
    ensures AppendMessages(peers, s') && VoteMessages(s')
  {
    AcceptingEvolves(peers, s, s', m.dst, m.term, m.prevIndex + |m.entries|);
    forall m' | m' in s'.sent && m'.AppendReq? ensures RequestOk(peers, s', m') {
      assert RequestOk(peers, s, m');
      RequestStable(peers, s, s', m');
    }
    forall m' | m' in s'.sent && m'.AppendResp? ensures ReplyOk(s', m') {
      if m' in s.sent {
        assert ReplyOk(s, m');
      } else {
        assert m' == SuccessReply(m);
      }
    }
  }

  lemma AcceptInv(peers: set<NodeId>, s: State, s': State, i: NodeId, t: nat, n: nat)
    requires Inv(peers, s) && Accepting(s, s', i, t, n)
    requires AppendMessages(peers, s') && VoteMessages(s') && Logs(s') && AckersKeep(peers, s') && Commits(peers, s')
    ensures Inv(peers, s') && Evolves(s, s')
  {
    AcceptingEvolves(peers, s, s', i, t, n);
    AcceptingVotes(peers, s, s', i, t, n);
    AcceptingAcks(s, s', i, t, n);
    AcceptingCandidacies(s, s', i, t, n);
    AcceptingElected(peers, s, s', i, t, n);
    AllLead(peers, s);
    AcceptingLeaders(peers, s, s', i, t, n);
    AcceptingIndexes(s, s', i, t, n);
    AcceptingCandidatesKeep(peers, s, s', i, t, n);
    AcceptingLeadersKeep(peers, s, s', i, t, n);
  }
}
