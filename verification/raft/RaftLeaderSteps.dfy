/**
 The steps of a winning candidate: taking the leadership of its term, and appending entries to the
 log of that term.
 */
module RaftLeaderSteps {
  import opened RaftTypes
  import opened RaftProtocol
  import opened RaftInvariant
  import opened RaftQuietSteps

  // ---- leader logs that grow ----

  /** A request stays a slice of its leader's log when that log grows. */
  lemma RequestStable(peers: set<NodeId>, s: State, s': State, m: Message)
    requires Evolves(s, s') && m.AppendReq? && RequestOk(peers, s, m)
    ensures RequestOk(peers, s', m)
  {
    var l := s.h.leaderLog[m.term];
    var l' := s'.h.leaderLog[m.term];
    var n := m.prevIndex + |m.entries|;
    assert l == l'[..|l|];
    assert l[m.prevIndex..n] == l'[m.prevIndex..n];
    if m.prevIndex > 0 {
      assert l[m.prevIndex - 1] == l'[m.prevIndex - 1];
    }
    assert m.commit <= |l| ==> l[..m.commit] == l'[..m.commit];
    CommitOkStable(peers, s, s', l, l', m.commit, m.term, m.term);
  }

  lemma MessagesStable(peers: set<NodeId>, s: State, s': State)
    requires AppendMessages(peers, s) && Evolves(s, s') && s'.sent == s.sent
    ensures AppendMessages(peers, s')
  {
    forall m | m in s'.sent && m.AppendReq? ensures RequestOk(peers, s', m) {
      assert RequestOk(peers, s, m);
      RequestStable(peers, s, s', m);
    }
    forall m | m in s'.sent && m.AppendResp? ensures ReplyOk(s', m) {
      assert ReplyOk(s, m);
    }
  }

  lemma CandidateLogsStable(s: State, s': State)
    requires Candidacies(s) && Evolves(s, s') && s'.h.candidateLog == s.h.candidateLog && s'.h.votes == s.h.votes
    requires forall i | i in s.servers && s'.servers[i].role == Candidate :: s'.servers[i] == s.servers[i]
    ensures Candidacies(s')
  {
    forall c: (NodeId, nat) | c in s'.h.candidateLog
      ensures c in s'.h.votes && s'.h.votes[c] == c.0 && c.1 >= 1
              && LogOk(s'.h, s'.h.candidateLog[c]) && TermsUpTo(s'.h.candidateLog[c], c.1 - 1)
    {
      assert c in s.h.candidateLog;
      LogOkStable(s, s', s.h.candidateLog[c]);
    }
  }

  lemma CommitsStable(peers: set<NodeId>, s: State, s': State)
    requires Commits(peers, s) && Evolves(s, s')
    requires forall i | i in s.servers ::
               s'.servers[i] == s.servers[i].(role := s'.servers[i].role, nextIndex := s'.servers[i].nextIndex,
                                              matchIndex := s'.servers[i].matchIndex)
    ensures Commits(peers, s')
  {
    forall i | i in s'.servers ensures CommitsAt(peers, s', s'.servers[i]) {
      var me := s.servers[i];
      assert CommitsAt(peers, s, me);
      CommitOkStable(peers, s, s', me.log, me.log, me.commit, me.term, me.term);
    }
  }

  // ---- taking the leadership ----

  /** What DoBecomeLeader leaves, in the terms the lemmas below need. */
  ghost predicate Took(s: State, s': State, i: NodeId, t: nat) {
    && i in s.servers && s.servers[i].term == t && s.servers[i].role == Candidate
    && s'.sent == s.sent
    && s'.servers.Keys == s.servers.Keys
    && (forall j | j in s.servers && j != i :: s'.servers[j] == s.servers[j])
    && s'.servers[i] == s.servers[i].(role := Leader, nextIndex := s'.servers[i].nextIndex,
                                      matchIndex := s'.servers[i].matchIndex)
    && s'.h == WithLeader(s.h, i, t, s.servers[i].log)
  }

  lemma BecomeLeaderTook(peers: set<NodeId>, s: State, s': State, i: NodeId, voters: set<NodeId>)
    requires DoBecomeLeader(peers, s, s', i, voters)
    ensures Took(s, s', i, s.servers[i].term)
    ensures forall p | p in peers && p != i ::
              NextOf(s'.servers[i], p) == |s.servers[i].log| + 1 && MatchOf(s'.servers[i], p) == 0
  {
  }

  /** The candidate and its voters are a majority that voted for it in its term. */
  lemma Electorate(peers: set<NodeId>, s: State, s': State, i: NodeId, voters: set<NodeId>)
    requires Shape(peers, s) && Candidacies(s) && VoteMessages(s) && DoBecomeLeader(peers, s, s', i, voters)
    ensures Majority(voters + {i}, peers) && VotedFor(s.h, voters + {i}, s.servers[i].term, i)
    ensures (i, s.servers[i].term) in s.h.candidateLog
            && s.h.candidateLog[(i, s.servers[i].term)] == s.servers[i].log
  {
    var t := s.servers[i].term;
    assert |voters + {i}| == |voters| + 1;
    forall n | n in voters + {i} ensures (n, t) in s.h.votes && s.h.votes[(n, t)] == i {
      if n in voters {
        assert VoteResp(n, i, t, false, t, true) in s.sent;
      }
    }
  }

  /** Two majorities of one term elected the same candidate. */
  lemma OneWinner(peers: set<NodeId>, h: History, t: nat, q: set<NodeId>, c: NodeId, q': set<NodeId>, c': NodeId)
    requires Majority(q, peers) && VotedFor(h, q, t, c)
    requires Majority(q', peers) && VotedFor(h, q', t, c')
    ensures c == c'
  {
    var n := MajoritiesMeet(q, q', peers);
  }

  /** Election safety: a term with a leader cannot be won again. */
  lemma TermNotYetWon(peers: set<NodeId>, s: State, i: NodeId, q: set<NodeId>)
    requires Shape(peers, s) && Leaders(peers, s) && i in s.servers && s.servers[i].role == Candidate
    requires Majority(q, peers) && VotedFor(s.h, q, s.servers[i].term, i)
    ensures s.servers[i].term !in s.h.leader
  {
    var t := s.servers[i].term;
    if t in s.h.leader {
      assert Elected(peers, s, t);
      var q' :| Majority(q', peers) && VotedFor(s.h, q', t, s.h.leader[t]);
      OneWinner(peers, s.h, t, q, i, q', s.h.leader[t]);
    }
  }

  lemma BecomeLeaderInv(peers: set<NodeId>, s: State, s': State, i: NodeId, voters: set<NodeId>)
    requires Inv(peers, s) && DoBecomeLeader(peers, s, s', i, voters)
    ensures Inv(peers, s') && Evolves(s, s')
  {
    BecomeLeaderTook(peers, s, s', i, voters);
    Electorate(peers, s, s', i, voters);
    TermNotYetWon(peers, s, i, voters + {i});
    TookInv(peers, s, s', i, s.servers[i].term, voters + {i});
  }

  lemma TookInv(peers: set<NodeId>, s: State, s': State, i: NodeId, t: nat, q: set<NodeId>)
    requires Inv(peers, s) && Took(s, s', i, t) && t !in s.h.leader
    requires Majority(q, peers) && VotedFor(s.h, q, t, i)
    requires (i, t) in s.h.candidateLog && s.h.candidateLog[(i, t)] == s.servers[i].log
    requires forall p | p in peers && p != i ::
               NextOf(s'.servers[i], p) == |s.servers[i].log| + 1 && MatchOf(s'.servers[i], p) == 0
    ensures Inv(peers, s') && Evolves(s, s')
  {
    TookEvolves(peers, s, s', i, t);
    TookVotes(peers, s, s', i, t);
    TookCandidacies(s, s', i, t);
    MessagesStable(peers, s, s');
    TookCommits(peers, s, s', i, t);
    TookLogs(s, s', i, t);
    TookElected(peers, s, s', i, t, q);
    AllLead(peers, s);
    TookLeaders(peers, s, s', i, t);
    TookIndexes(peers, s, s', i, t);
    TookKeeps(peers, s, s', i, t);
    TookLeadersKeep(peers, s, s', i, t, q);
  }

  lemma TookCandidacies(s: State, s': State, i: NodeId, t: nat)
    requires Candidacies(s) && Took(s, s', i, t) && Evolves(s, s')
    ensures Candidacies(s')
  {
    CandidateLogsStable(s, s');
  }

  lemma TookCommits(peers: set<NodeId>, s: State, s': State, i: NodeId, t: nat)
    requires Commits(peers, s) && Took(s, s', i, t) && Evolves(s, s')
    ensures Commits(peers, s')
  {
    CommitsStable(peers, s, s');
  }

  lemma TookEvolves(peers: set<NodeId>, s: State, s': State, i: NodeId, t: nat)
    requires Shape(peers, s) && Took(s, s', i, t) && t !in s.h.leader
    ensures Evolves(s, s') && Shape(peers, s')
  {
  }

  lemma TookVotes(peers: set<NodeId>, s: State, s': State, i: NodeId, t: nat)
    requires Votes(peers, s) && VoteMessages(s) && Acks(s) && Took(s, s', i, t) && Evolves(s, s')
    ensures Votes(peers, s') && VoteMessages(s') && Acks(s')
  {
  }

  lemma TookLogs(s: State, s': State, i: NodeId, t: nat)
    requires Logs(s) && Took(s, s', i, t) && Evolves(s, s')
    ensures Logs(s')
  {
    forall j | j in s'.servers ensures LogOk(s'.h, s'.servers[j].log) {
      LogOkStable(s, s', s.servers[j].log);
    }
    forall u | u in s'.h.leaderLog ensures LogOk(s'.h, s'.h.leaderLog[u]) {
      LogOkStable(s, s', s'.h.leaderLog[u]);
    }
  }

  lemma ElectedStable(peers: set<NodeId>, s: State, s': State, u: nat)
    requires Evolves(s, s') && u in s.h.leader && u in s.h.leaderLog && Elected(peers, s, u)
    requires s'.servers[s.h.leader[u]].role == Candidate ==> s'.servers[s.h.leader[u]] == s.servers[s.h.leader[u]]
    ensures Elected(peers, s', u)
  {
    var c := s.h.leader[u];
    var q :| Majority(q, peers) && VotedFor(s.h, q, u, c);
    assert VotedFor(s'.h, q, u, c);
  }

  lemma TookElected(peers: set<NodeId>, s: State, s': State, i: NodeId, t: nat, q: set<NodeId>)
    requires Shape(peers, s) && Leaders(peers, s) && Took(s, s', i, t) && Evolves(s, s')
    requires Majority(q, peers) && VotedFor(s.h, q, t, i)
    requires (i, t) in s.h.candidateLog && s.h.candidateLog[(i, t)] == s.servers[i].log
    ensures forall u | u in s'.h.leader :: u in s'.h.leaderLog && Elected(peers, s', u)
  {
    forall u | u in s'.h.leader ensures u in s'.h.leaderLog && Elected(peers, s', u) {
      if u == t {
        assert VotedFor(s'.h, q, t, i);
      } else {
        assert u in s.h.leader && Elected(peers, s, u);
        ElectedStable(peers, s, s', u);
      }
    }
  }

  lemma TookLeaders(peers: set<NodeId>, s: State, s': State, i: NodeId, t: nat)
    requires Shape(peers, s) && Shape(peers, s') && Took(s, s', i, t) && t !in s.h.leader
    requires forall j | j in s.servers && s.servers[j].role == Leader :: LeadsItsTerm(s, j)
    requires forall u | u in s'.h.leader :: u in s'.h.leaderLog && Elected(peers, s', u)
    ensures Leaders(peers, s')
  {
    forall j | j in s'.servers && s'.servers[j].role == Leader
      ensures s'.servers[j].term in s'.h.leader && s'.h.leader[s'.servers[j].term] == j
              && s'.h.leaderLog[s'.servers[j].term] == s'.servers[j].log
    {
      if j != i {
        assert s'.servers[j] == s.servers[j] && LeadsItsTerm(s, j);
      }
    }
  }

  lemma TookIndexes(peers: set<NodeId>, s: State, s': State, i: NodeId, t: nat)
    requires LeaderIndexes(s) && Candidacies(s) && Took(s, s', i, t) && Evolves(s, s') && s.servers.Keys == peers
    requires forall p | p in peers && p != i ::
               NextOf(s'.servers[i], p) == |s.servers[i].log| + 1 && MatchOf(s'.servers[i], p) == 0
    ensures LeaderIndexes(s')
  {
    CandidateIsBehind(s, i);
    NewLeaderIndexes(s, s', i, t);
  }

  /** A candidate's log holds no entry of its own term yet. */
  lemma CandidateIsBehind(s: State, i: NodeId)
    requires Candidacies(s) && i in s.servers && s.servers[i].role == Candidate
    ensures s.servers[i].term >= 1 && LastTerm(s.servers[i].log) != s.servers[i].term
  {
    var c: (NodeId, nat) := (i, s.servers[i].term);
    assert c in s.h.candidateLog && s.h.candidateLog[c] == s.servers[i].log;
    assert TermsUpTo(s.servers[i].log, s.servers[i].term - 1);
  }

  lemma NewLeaderIndexes(s: State, s': State, i: NodeId, t: nat)
    requires LeaderIndexes(s) && Took(s, s', i, t) && Later(s, s') && LastTerm(s.servers[i].log) != t
    requires forall p | p in s.servers && p != i ::
               NextOf(s'.servers[i], p) == |s.servers[i].log| + 1 && MatchOf(s'.servers[i], p) == 0
    ensures LeaderIndexes(s')
  {
  }

  /** A leader that just won has no entry of its own term yet. */
  lemma NoOwnEntryYet(s: State, s': State, i: NodeId, t: nat, k: nat)
    requires Candidacies(s) && Took(s, s', i, t)
    ensures !OwnEntry(s'.h, t, k)
  {
    var c: (NodeId, nat) := (i, t);
    assert c in s.h.candidateLog && s.h.candidateLog[c] == s.servers[i].log;
    assert TermsUpTo(s.servers[i].log, t - 1);
  }

  lemma TookKeeps(peers: set<NodeId>, s: State, s': State, i: NodeId, t: nat)
    requires AckersKeep(peers, s) && CandidatesKeep(peers, s) && Candidacies(s)
    requires Took(s, s', i, t) && Evolves(s, s')
    ensures AckersKeep(peers, s') && CandidatesKeep(peers, s')
  {
    forall a: (NodeId, nat, nat), k: nat | a in s'.h.acks && a.0 in s'.servers && 1 <= k <= a.2
      ensures Kept(peers, s', s'.servers[a.0].log, a.1, k)
    {
      NoOwnEntryYet(s, s', i, t, k);
      KeptStable(peers, s, s', s.servers[a.0].log, s.servers[a.0].log, a.1, k);
    }
    forall v: (NodeId, nat), a: (NodeId, nat, nat), k: nat |
      v in s'.h.votes && (s'.h.votes[v], v.1) in s'.h.candidateLog
      && a in s'.h.acks && a.0 == v.0 && a.1 < v.1 && 1 <= k <= a.2
      ensures Kept(peers, s', s'.h.candidateLog[(s'.h.votes[v], v.1)], a.1, k)
    {
      var log := s.h.candidateLog[(s.h.votes[v], v.1)];
      NoOwnEntryYet(s, s', i, t, k);
      KeptStable(peers, s, s', log, log, a.1, k);
    }
  }

  /**
   The new leader keeps every earlier leader's prefix: either some voter had acknowledged it, and
   the voter passed it on, or the whole electorate refuses it.
   */
  lemma WinnerKeeps(peers: set<NodeId>, s: State, i: NodeId, t: nat, q: set<NodeId>, u: nat, k: nat)
    requires Shape(peers, s) && Votes(peers, s) && CandidatesKeep(peers, s)
    requires i in s.servers && Majority(q, peers) && VotedFor(s.h, q, t, i)
    requires (i, t) in s.h.candidateLog && s.h.candidateLog[(i, t)] == s.servers[i].log
    requires u < t && k >= 1
    ensures Kept(peers, s, s.servers[i].log, u, k)
  {
    if n :| n in q && !NoAck(s.h, n, u, k) {
      var m :| (n, u, m) in s.h.acks && m >= k;
      var v: (NodeId, nat), a: (NodeId, nat, nat) := (n, t), (n, u, m);
      assert v in s.h.votes && s.h.votes[v] == i && a in s.h.acks;
      assert Kept(peers, s, s.h.candidateLog[(s.h.votes[v], v.1)], a.1, k);
    } else {
      forall n | n in q ensures n in s.servers && s.servers[n].term > u && NoAck(s.h, n, u, k) {
        var v: (NodeId, nat) := (n, t);
        assert v in s.h.votes;
      }
      assert Refusers(s, q, u, k);
    }
  }

  lemma TookLeadersKeep(peers: set<NodeId>, s: State, s': State, i: NodeId, t: nat, q: set<NodeId>)
    requires Shape(peers, s) && Votes(peers, s) && CandidatesKeep(peers, s) && LeadersKeep(peers, s) && Candidacies(s)
    requires Took(s, s', i, t) && Evolves(s, s') && Majority(q, peers) && VotedFor(s.h, q, t, i)
    requires (i, t) in s.h.candidateLog && s.h.candidateLog[(i, t)] == s.servers[i].log
    ensures LeadersKeep(peers, s')
  {
    forall u, u', k: nat | u in s'.h.leaderLog && u' in s'.h.leaderLog && u < u'
      ensures Kept(peers, s', s'.h.leaderLog[u'], u, k)
    {
      NoOwnEntryYet(s, s', i, t, k);
      if u != t && OwnEntry(s'.h, u, k) {
        if u' == t {
          WinnerKeeps(peers, s, i, t, q, u, k);
        } else {
          assert Kept(peers, s, s.h.leaderLog[u'], u, k);
        }
        KeptStable(peers, s, s', s'.h.leaderLog[u'], s'.h.leaderLog[u'], u, k);
      }
    }
  }

  // ---- appending to the leader log ----

  /** What DoLeaderAppend leaves: one more entry of the term, and the leader's own acknowledgement. */
  ghost predicate Grew(s: State, s': State, i: NodeId, t: nat, entry: LogEntry) {
    && i in s.servers && s.servers[i].role == Leader && s.servers[i].term == t
    && entry.term == t && entry.index == |s.servers[i].log| + 1
    && s'.sent == s.sent
    && s'.servers.Keys == s.servers.Keys
    && (forall j | j in s.servers && j != i :: s'.servers[j] == s.servers[j])
    && s'.servers[i].role == Leader && s'.servers[i].term == t
    && s'.servers[i].votedFor == s.servers[i].votedFor
    && s'.servers[i].log == s.servers[i].log + [entry]
    && s'.h == WithAck(WithLeaderLog(s.h, t, s'.servers[i].log), i, t, |s'.servers[i].log|)
  }

  lemma LeaderAppendGrew(peers: set<NodeId>, s: State, s': State, i: NodeId, kind: LogType, data: seq<bv8>)
    requires DoLeaderAppend(peers, s, s', i, kind, data)
    ensures Grew(s, s', i, s.servers[i].term, LogEntry(|s.servers[i].log| + 1, s.servers[i].term, kind, data))
    ensures forall p | p != i :: NextOf(s'.servers[i], p) == NextOf(s.servers[i], p)
    ensures forall p | p != i :: MatchOf(s'.servers[i], p) == MatchOf(s.servers[i], p)
  {
  }

  lemma LeaderAppendInv(peers: set<NodeId>, s: State, s': State, i: NodeId, kind: LogType, data: seq<bv8>)
    requires Inv(peers, s) && DoLeaderAppend(peers, s, s', i, kind, data)
    ensures Inv(peers, s') && Evolves(s, s')
  {
    var t := s.servers[i].term;
    var entry := LogEntry(|s.servers[i].log| + 1, t, kind, data);
    LeaderAppendGrew(peers, s, s', i, kind, data);
    AllLead(peers, s);
    GrewEvolves(peers, s, s', i, t, entry);
    LeaderAppendCommits(peers, s, s', i, kind, data);
    GrewInv(peers, s, s', i, t, entry);
  }

  lemma GrewInv(peers: set<NodeId>, s: State, s': State, i: NodeId, t: nat, entry: LogEntry)
    requires Inv(peers, s) && Grew(s, s', i, t, entry) && Evolves(s, s') && Shape(peers, s') && Commits(peers, s')
    requires LeadsItsTerm(s, i)
    requires forall p | p != i :: NextOf(s'.servers[i], p) == NextOf(s.servers[i], p)
    requires forall p | p != i :: MatchOf(s'.servers[i], p) == MatchOf(s.servers[i], p)
    ensures Inv(peers, s') && Evolves(s, s')
  {
    GrewVotes(peers, s, s', i, t, entry);
    GrewCandidacies(s, s', i, t, entry);
    MessagesStable(peers, s, s');
    GrewLogs(s, s', i, t, entry);
    GrewElected(peers, s, s', i, t, entry);
    AllLead(peers, s);
    GrewLeaders(peers, s, s', i, t, entry);
    GrewIndexes(s, s', i, t, entry);
    GrewAckersKeep(peers, s, s', i, t, entry);
    GrewCandidatesKeep(peers, s, s', i, t, entry);
    forall u | u in s.h.leaderLog && t < u ensures Refused(peers, s', t, |s'.servers[i].log|) {
      NewEntryRefused(peers, s, s', i, t, entry, u);
    }
    GrewLeadersKeep(peers, s, s', i, t, entry);
  }

  lemma GrewEvolves(peers: set<NodeId>, s: State, s': State, i: NodeId, t: nat, entry: LogEntry)
    requires Shape(peers, s) && Grew(s, s', i, t, entry) && LeadsItsTerm(s, i)
    ensures Evolves(s, s') && Shape(peers, s')
  {
  }

  lemma GrewVotes(peers: set<NodeId>, s: State, s': State, i: NodeId, t: nat, entry: LogEntry)
    requires Votes(peers, s) && VoteMessages(s) && Acks(s) && Grew(s, s', i, t, entry) && Evolves(s, s')
    ensures Votes(peers, s') && VoteMessages(s') && Acks(s')
  {
  }

  lemma GrewCandidacies(s: State, s': State, i: NodeId, t: nat, entry: LogEntry)
    requires Candidacies(s) && Grew(s, s', i, t, entry) && Evolves(s, s')
    ensures Candidacies(s')
  {
    CandidateLogsStable(s, s');
  }

  lemma GrownLogOk(s: State, s': State, i: NodeId, t: nat, entry: LogEntry)
    requires Logs(s) && Grew(s, s', i, t, entry) && Evolves(s, s')
    ensures LogOk(s'.h, s'.servers[i].log) && TermsUpTo(s'.servers[i].log, t)
  {
    var log, log' := s.servers[i].log, s'.servers[i].log;
    LogOkStable(s, s', log);
    forall k | 0 <= k < |log'| ensures EntryOk(s'.h, log', k) {
      if k < |log| {
        assert EntryOk(s'.h, log, k);
        assert log'[..k + 1] == log[..k + 1];
      } else {
        assert log'[..k + 1] == log';
      }
    }
  }

  lemma GrewLogs(s: State, s': State, i: NodeId, t: nat, entry: LogEntry)
    requires Logs(s) && Grew(s, s', i, t, entry) && Evolves(s, s')
    ensures Logs(s')
  {
    GrownLogOk(s, s', i, t, entry);
    forall j | j in s'.servers ensures LogOk(s'.h, s'.servers[j].log) && TermsUpTo(s'.servers[j].log, s'.servers[j].term) {
      if j != i {
        assert s'.servers[j] == s.servers[j];
        LogOkStable(s, s', s.servers[j].log);
      }
    }
    forall u | u in s'.h.leaderLog ensures LogOk(s'.h, s'.h.leaderLog[u]) && TermsUpTo(s'.h.leaderLog[u], u) {
      if u != t {
        LogOkStable(s, s', s.h.leaderLog[u]);
      }
    }
  }

  lemma GrewElected(peers: set<NodeId>, s: State, s': State, i: NodeId, t: nat, entry: LogEntry)
    requires Shape(peers, s) && Leaders(peers, s) && Grew(s, s', i, t, entry) && Evolves(s, s')
    ensures forall u | u in s'.h.leader :: u in s'.h.leaderLog && Elected(peers, s', u)
  {
    forall u | u in s'.h.leader ensures u in s'.h.leaderLog && Elected(peers, s', u) {
      assert u in s.h.leader && Elected(peers, s, u);
      ElectedStable(peers, s, s', u);
    }
  }

  lemma GrewLeaders(peers: set<NodeId>, s: State, s': State, i: NodeId, t: nat, entry: LogEntry)
    requires Shape(peers, s) && Shape(peers, s') && Grew(s, s', i, t, entry)
    requires forall j | j in s.servers && s.servers[j].role == Leader :: LeadsItsTerm(s, j)
    requires forall u | u in s'.h.leader :: u in s'.h.leaderLog && Elected(peers, s', u)
    ensures Leaders(peers, s')
  {
    assert LeadsItsTerm(s, i);
    forall j | j in s'.servers && s'.servers[j].role == Leader
      ensures s'.servers[j].term in s'.h.leader && s'.h.leader[s'.servers[j].term] == j
              && s'.h.leaderLog[s'.servers[j].term] == s'.servers[j].log
    {
      if j != i {
        assert s'.servers[j] == s.servers[j] && LeadsItsTerm(s, j);
      }
    }
  }

  lemma GrewIndexes(s: State, s': State, i: NodeId, t: nat, entry: LogEntry)
    requires LeaderIndexes(s) && Grew(s, s', i, t, entry) && Evolves(s, s')
    requires forall p | p != i :: NextOf(s'.servers[i], p) == NextOf(s.servers[i], p)
    requires forall p | p != i :: MatchOf(s'.servers[i], p) == MatchOf(s.servers[i], p)
    ensures LeaderIndexes(s')
  {
  }

  /** Only the new last entry is a new own entry of the term. */
  lemma OldOwnEntry(s: State, s': State, i: NodeId, t: nat, entry: LogEntry, u: nat, k: nat)
    requires Grew(s, s', i, t, entry) && LeadsItsTerm(s, i) && OwnEntry(s'.h, u, k)
    requires !(u == t && k == |s'.servers[i].log|)
    ensures OwnEntry(s.h, u, k)
  {
  }

  lemma GrewAckersKeep(peers: set<NodeId>, s: State, s': State, i: NodeId, t: nat, entry: LogEntry)
    requires AckersKeep(peers, s) && Acks(s) && Grew(s, s', i, t, entry) && Evolves(s, s') && LeadsItsTerm(s, i)
    ensures AckersKeep(peers, s')
  {
    forall a: (NodeId, nat, nat), k: nat | a in s'.h.acks && a.0 in s'.servers && 1 <= k <= a.2
      ensures Kept(peers, s', s'.servers[a.0].log, a.1, k)
    {
      if a !in s.h.acks {
        assert s'.h.leaderLog[t] == s'.servers[i].log;
      } else {
        assert a.2 <= |s.h.leaderLog[a.1]|;
        if OwnEntry(s'.h, a.1, k) {
          OldOwnEntry(s, s', i, t, entry, a.1, k);
        }
        KeptStable(peers, s, s', s.servers[a.0].log, s'.servers[a.0].log, a.1, k);
      }
    }
  }

  lemma GrewCandidatesKeep(peers: set<NodeId>, s: State, s': State, i: NodeId, t: nat, entry: LogEntry)
    requires CandidatesKeep(peers, s) && Acks(s) && Votes(peers, s)
    requires Grew(s, s', i, t, entry) && Evolves(s, s') && LeadsItsTerm(s, i)
    ensures CandidatesKeep(peers, s')
  {
    forall v: (NodeId, nat), a: (NodeId, nat, nat), k: nat |
      v in s'.h.votes && (s'.h.votes[v], v.1) in s'.h.candidateLog
      && a in s'.h.acks && a.0 == v.0 && a.1 < v.1 && 1 <= k <= a.2
      ensures Kept(peers, s', s'.h.candidateLog[(s'.h.votes[v], v.1)], a.1, k)
    {
      assert v.1 <= s.servers[v.0].term;
      assert a in s.h.acks;
      assert a.2 <= |s.h.leaderLog[a.1]|;
      if OwnEntry(s'.h, a.1, k) {
        OldOwnEntry(s, s', i, t, entry, a.1, k);
      }
      var log := s.h.candidateLog[(s.h.votes[v], v.1)];
      KeptStable(peers, s, s', log, log, a.1, k);
    }
  }

  /** Whoever elected a later leader has left term t, so the new entry of t stays unacknowledged by them. */
  lemma NewEntryRefused(peers: set<NodeId>, s: State, s': State, i: NodeId, t: nat, entry: LogEntry, u: nat)
    requires Shape(peers, s) && Leaders(peers, s) && Votes(peers, s) && Acks(s) && u in s.h.leaderLog && t < u
    requires Grew(s, s', i, t, entry) && LeadsItsTerm(s, i)
    ensures Refused(peers, s', t, |s'.servers[i].log|)
  {
    var k := |s'.servers[i].log|;
    assert Elected(peers, s, u);
    var q :| Majority(q, peers) && VotedFor(s.h, q, u, s.h.leader[u]);
    forall n | n in q ensures n in s'.servers && s'.servers[n].term > t && NoAck(s'.h, n, t, k) {
      var v: (NodeId, nat) := (n, u);
      assert v in s.h.votes;
      assert n != i;
      forall m | (n, t, m) in s'.h.acks ensures m < k {
        var a: (NodeId, nat, nat) := (n, t, m);
        assert a in s.h.acks;
      }
    }
    assert Refusers(s', q, t, k);
  }

  lemma GrewLeadersKeep(peers: set<NodeId>, s: State, s': State, i: NodeId, t: nat, entry: LogEntry)
    requires LeadersKeep(peers, s) && Grew(s, s', i, t, entry) && Evolves(s, s') && LeadsItsTerm(s, i)
    requires forall u | u in s.h.leaderLog && t < u :: Refused(peers, s', t, |s'.servers[i].log|)
    ensures LeadersKeep(peers, s')
  {
    forall u, u', k: nat | u in s'.h.leaderLog && u' in s'.h.leaderLog && u < u'
      ensures Kept(peers, s', s'.h.leaderLog[u'], u, k)
    {
      if u == t && k == |s'.servers[i].log| {
        assert u' in s.h.leaderLog;
      } else {
        if OwnEntry(s'.h, u, k) {
          OldOwnEntry(s, s', i, t, entry, u, k);
        }
        assert Kept(peers, s, s.h.leaderLog[u'], u, k);
        KeptStable(peers, s, s', s.h.leaderLog[u'], s'.h.leaderLog[u'], u, k);
      }
    }
  }

  // ---- the commit index of the appending leader ----

  /** In a cluster of one, the leader's own acknowledgement is a majority. */
  lemma AloneCommits(peers: set<NodeId>, s': State, i: NodeId, t: nat)
    requires peers == {i} && i in s'.servers
    requires t in s'.h.leaderLog && s'.h.leaderLog[t] == s'.servers[i].log && LastTerm(s'.servers[i].log) == t
    requires |s'.servers[i].log| > 0 && (i, t, |s'.servers[i].log|) in s'.h.acks
    ensures CommitOk(peers, s', s'.servers[i].log, |s'.servers[i].log|, t)
  {
    var k := |s'.servers[i].log|;
    assert Acked(s'.h, i, t, k);
    assert Majority({i}, peers) && Accepters(s'.h, {i}, t, k);
    assert CoveredBy(peers, s', s'.servers[i].log, k, t, k);
  }

  lemma LoneMember(peers: set<NodeId>, i: NodeId)
    requires i in peers && |peers| == 1
    ensures peers == {i}
  {
    if j :| j in peers && j != i {
      SubsetSize({i, j}, peers);
    }
  }

  lemma LeaderAppendCommits(peers: set<NodeId>, s: State, s': State, i: NodeId, kind: LogType, data: seq<bv8>)
    requires Shape(peers, s) && Commits(peers, s) && Evolves(s, s') && DoLeaderAppend(peers, s, s', i, kind, data)
    requires Grew(s, s', i, s.servers[i].term, LogEntry(|s.servers[i].log| + 1, s.servers[i].term, kind, data))
    ensures Commits(peers, s')
  {
    assert s'.servers[i] == OnLeaderAppend(s.servers[i], i, peers, kind, data);
    AppenderCommits(peers, s, s', i, s.servers[i], kind, data);
    OthersCommit(peers, s, s', i);
  }

  lemma OthersCommit(peers: set<NodeId>, s: State, s': State, i: NodeId)
    requires Commits(peers, s) && Evolves(s, s')
    requires forall j | j in s.servers && j != i :: s'.servers[j] == s.servers[j]
    ensures forall j | j in s'.servers && j != i :: CommitsAt(peers, s', s'.servers[j])
  {
    forall j | j in s'.servers && j != i ensures CommitsAt(peers, s', s'.servers[j]) {
      var me := s.servers[j];
      assert CommitsAt(peers, s, me);
      CommitOkStable(peers, s, s', me.log, me.log, me.commit, me.term, me.term);
    }
  }

  lemma AppenderCommits(peers: set<NodeId>, s: State, s': State, i: NodeId, me: Server, kind: LogType, data: seq<bv8>)
    requires i in peers && i in s'.servers && Evolves(s, s') && CommitsAt(peers, s, me)
    requires s'.servers[i] == OnLeaderAppend(me, i, peers, kind, data)
    requires me.term in s'.h.leaderLog && s'.h.leaderLog[me.term] == s'.servers[i].log
    requires (i, me.term, |s'.servers[i].log|) in s'.h.acks
    ensures CommitsAt(peers, s', s'.servers[i])
  {
    var me' := s'.servers[i];
    if |peers| == 1 {
      LoneMember(peers, i);
      AppendHandsOut(me, i, peers, kind, data);
      AloneCommits(peers, s', i, me.term);
    } else {
      assert me.log[..me.commit] == me'.log[..me.commit];
      assert me.log[..me.applied] == me'.log[..me.applied];
      CommitOkStable(peers, s, s', me.log, me'.log, me.commit, me.term, me.term);
    }
  }

  lemma AppendHandsOut(me: Server, i: NodeId, peers: set<NodeId>, kind: LogType, data: seq<bv8>)
    requires me.applied <= me.commit <= |me.log| && me.handed == me.log[..me.applied] && |peers| == 1
    ensures var me' := OnLeaderAppend(me, i, peers, kind, data);
            me'.applied == me'.commit == |me'.log| && me'.handed == me'.log
  {
    var me' := OnLeaderAppend(me, i, peers, kind, data);
    assert me'.handed == me.log[..me.applied] + me'.log[me.applied..|me'.log|];
  }
}
