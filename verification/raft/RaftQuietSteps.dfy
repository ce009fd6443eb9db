/**
 The steps that leave every log and every acknowledgement as it is: timers, votes, sending, and
 restarts.
 */
module RaftQuietSteps {
  import opened RaftTypes
  import opened RaftProtocol
  import opened RaftInvariant

  /** Logs, leader logs and acknowledgements stay; terms and roles may change. */
  ghost predicate Quiet(s: State, s': State) {
    && Evolves(s, s')
    && s'.h.leaderLog == s.h.leaderLog && s'.h.leader == s.h.leader && s'.h.acks == s.h.acks
    && (forall i | i in s.servers :: s'.servers[i].log == s.servers[i].log)
  }

  ghost predicate SameCommits(s: State, s': State) {
    s.servers.Keys == s'.servers.Keys
    && forall i | i in s.servers ::
         && s'.servers[i].commit == s.servers[i].commit
         && s'.servers[i].applied == s.servers[i].applied
         && s'.servers[i].handed == s.servers[i].handed
  }

  ghost predicate SameVotes(s: State, s': State) {
    s'.h.votes == s.h.votes && s'.h.candidateLog == s.h.candidateLog
  }

  lemma QuietLogs(s: State, s': State)
    requires Logs(s) && Acks(s) && Quiet(s, s')
    ensures Logs(s') && Acks(s')
  {
    forall i | i in s'.servers ensures LogOk(s'.h, s'.servers[i].log) {
      LogOkStable(s, s', s.servers[i].log);
    }
    forall t | t in s'.h.leaderLog ensures LogOk(s'.h, s'.h.leaderLog[t]) {
      LogOkStable(s, s', s.h.leaderLog[t]);
    }
  }

  lemma QuietCommits(peers: set<NodeId>, s: State, s': State)
    requires Commits(peers, s) && Quiet(s, s') && SameCommits(s, s')
    ensures Commits(peers, s')
  {
    forall i | i in s'.servers ensures CommitsAt(peers, s', s'.servers[i]) {
      var me := s.servers[i];
      assert CommitsAt(peers, s, me);
      CommitOkStable(peers, s, s', me.log, me.log, me.commit, me.term, s'.servers[i].term);
    }
  }

  lemma QuietKept(peers: set<NodeId>, s: State, s': State)
    requires AckersKeep(peers, s) && LeadersKeep(peers, s) && Quiet(s, s')
    ensures AckersKeep(peers, s') && LeadersKeep(peers, s')
  {
    forall a: (NodeId, nat, nat), k: nat | a in s'.h.acks && a.0 in s'.servers && 1 <= k <= a.2
      ensures Kept(peers, s', s'.servers[a.0].log, a.1, k)
    {
      KeptStable(peers, s, s', s.servers[a.0].log, s.servers[a.0].log, a.1, k);
    }
    forall t, t', k: nat | t in s'.h.leaderLog && t' in s'.h.leaderLog && t < t'
      ensures Kept(peers, s', s'.h.leaderLog[t'], t, k)
    {
      KeptStable(peers, s, s', s.h.leaderLog[t'], s.h.leaderLog[t'], t, k);
    }
  }

  lemma QuietCandidates(peers: set<NodeId>, s: State, s': State)
    requires CandidatesKeep(peers, s) && Quiet(s, s') && SameVotes(s, s')
    ensures CandidatesKeep(peers, s')
  {
    forall v: (NodeId, nat), a: (NodeId, nat, nat), k: nat | v in s'.h.votes && (s'.h.votes[v], v.1) in s'.h.candidateLog
                     && a in s'.h.acks && a.0 == v.0 && a.1 < v.1 && 1 <= k <= a.2
      ensures Kept(peers, s', s'.h.candidateLog[(s'.h.votes[v], v.1)], a.1, k)
    {
      var log := s.h.candidateLog[(s.h.votes[v], v.1)];
      KeptStable(peers, s, s', log, log, a.1, k);
    }
  }

  lemma QuietRequest(peers: set<NodeId>, s: State, s': State, m: Message)
    requires Quiet(s, s') && m.AppendReq? && RequestOk(peers, s, m)
    ensures RequestOk(peers, s', m)
  {
    CommitOkStable(peers, s, s', s.h.leaderLog[m.term], s.h.leaderLog[m.term], m.commit, m.term, m.term);
  }

  lemma QuietMessages(peers: set<NodeId>, s: State, s': State)
    requires AppendMessages(peers, s) && Quiet(s, s')
    requires forall m | m in s'.sent && m !in s.sent && m.AppendReq? :: RequestOk(peers, s, m)
    requires forall m | m in s'.sent && m !in s.sent && m.AppendResp? :: ReplyOk(s, m)
    ensures AppendMessages(peers, s')
  {
    forall m | m in s'.sent && m.AppendReq? ensures RequestOk(peers, s', m) {
      assert RequestOk(peers, s, m);
      QuietRequest(peers, s, s', m);
    }
    forall m | m in s'.sent && m.AppendResp? ensures ReplyOk(s', m) {
      assert ReplyOk(s, m);
    }
  }

  /** Only a newer term makes a candidate, and nothing makes a leader. */
  ghost predicate NoNewLeader(a: Server, b: Server) {
    b.role != Follower ==>
      (b.role == a.role && b.term == a.term && (b.role == Leader ==> b.nextIndex == a.nextIndex && b.matchIndex == a.matchIndex))
      || (b.role == Candidate && a.term < b.term)
  }

  lemma QuietElected(peers: set<NodeId>, s: State, s': State, t: nat)
    requires Quiet(s, s') && t in s.h.leader && t in s.h.leaderLog && Elected(peers, s, t)
    requires NoNewLeader(s.servers[s.h.leader[t]], s'.servers[s.h.leader[t]])
    ensures Elected(peers, s', t)
  {
    var c := s.h.leader[t];
    var q :| Majority(q, peers) && VotedFor(s.h, q, t, c);
    assert VotedFor(s'.h, q, t, c);
  }

  lemma QuietLeaders(peers: set<NodeId>, s: State, s': State)
    requires Shape(peers, s) && Leaders(peers, s) && Quiet(s, s')
    requires forall i | i in s.servers :: NoNewLeader(s.servers[i], s'.servers[i])
    ensures Leaders(peers, s')
  {
    forall t | t in s'.h.leader ensures Elected(peers, s', t) {
      assert t in s.h.leader && Elected(peers, s, t);
      QuietElected(peers, s, s', t);
    }
    forall i | i in s'.servers && s'.servers[i].role == Leader
      ensures s.servers[i].role == Leader && s'.servers[i].term == s.servers[i].term
    {
      assert NoNewLeader(s.servers[i], s'.servers[i]);
    }
  }

  lemma QuietIndexes(s: State, s': State)
    requires LeaderIndexes(s) && Quiet(s, s')
    requires forall i | i in s.servers :: NoNewLeader(s.servers[i], s'.servers[i])
    ensures LeaderIndexes(s')
  {
    forall i | i in s'.servers && s'.servers[i].role == Leader
      ensures s.servers[i].role == Leader && s'.servers[i].term == s.servers[i].term
    {
      assert NoNewLeader(s.servers[i], s'.servers[i]);
    }
  }

  // ---- steps that record no vote ----

  /** A node keeps its term, or adopts a newer one with no vote and as a follower. */
  ghost predicate TermChange(a: Server, b: Server) {
    || (b.term == a.term && b.votedFor == a.votedFor && (b.role == a.role || b.role == Follower))
    || (a.term < b.term && b.votedFor == NOBODY && b.role == Follower)
  }

  ghost predicate Calm(s: State, s': State) {
    && Quiet(s, s') && SameVotes(s, s')
    && (forall i | i in s.servers :: TermChange(s.servers[i], s'.servers[i]))
    && (forall m | m in s'.sent && m !in s.sent :: (m.VoteReq? && m.pre) || m.AppendReq? || m.AppendResp?)
  }

  lemma CalmVotes(peers: set<NodeId>, s: State, s': State)
    requires Votes(peers, s) && VoteMessages(s) && Calm(s, s')
    ensures Votes(peers, s') && VoteMessages(s')
  {
    forall i | i in s'.servers && s'.servers[i].votedFor != NOBODY
      ensures (i, s'.servers[i].term) in s'.h.votes && s'.h.votes[(i, s'.servers[i].term)] == s'.servers[i].votedFor
    {
      assert TermChange(s.servers[i], s'.servers[i]);
    }
    forall v: (NodeId, nat) | v in s'.h.votes && v.1 == s'.servers[v.0].term ensures s'.servers[v.0].votedFor == s'.h.votes[v] {
      assert TermChange(s.servers[v.0], s'.servers[v.0]);
    }
  }

  lemma CalmCandidacies(peers: set<NodeId>, s: State, s': State)
    requires Candidacies(s) && Calm(s, s')
    ensures Candidacies(s')
  {
    forall c: (NodeId, nat) | c in s'.h.candidateLog ensures LogOk(s'.h, s'.h.candidateLog[c]) {
      assert c in s.h.candidateLog;
      LogOkStable(s, s', s.h.candidateLog[c]);
    }
    forall i | i in s'.servers && s'.servers[i].role == Candidate
      ensures (i, s'.servers[i].term) in s'.h.candidateLog
              && s'.h.candidateLog[(i, s'.servers[i].term)] == s'.servers[i].log
    {
      assert TermChange(s.servers[i], s'.servers[i]);
    }
  }

  lemma CalmInv(peers: set<NodeId>, s: State, s': State)
    requires Inv(peers, s) && Calm(s, s')
    requires AppendMessages(peers, s') && LeaderIndexes(s') && Leaders(peers, s') && Commits(peers, s')
    ensures Inv(peers, s') && Evolves(s, s')
  {
    CalmVotes(peers, s, s');
    CalmCandidacies(peers, s, s');
    QuietLogs(s, s');
    QuietKept(peers, s, s');
    QuietCandidates(peers, s, s');
  }

  lemma TimeoutInv(peers: set<NodeId>, s: State, s': State, i: NodeId)
    requires Inv(peers, s) && DoTimeout(peers, s, s', i)
    ensures Inv(peers, s') && Evolves(s, s')
  {
    TimeoutCalm(peers, s, s', i);
    QuietMessages(peers, s, s');
    QuietIndexes(s, s');
    QuietLeaders(peers, s, s');
    QuietCommits(peers, s, s');
    CalmInv(peers, s, s');
  }

  lemma TimeoutCalm(peers: set<NodeId>, s: State, s': State, i: NodeId)
    requires DoTimeout(peers, s, s', i)
    ensures Calm(s, s') && SameCommits(s, s')
    ensures forall j | j in s.servers :: NoNewLeader(s.servers[j], s'.servers[j])
  {
  }

  lemma ReceiveVoteRespInv(peers: set<NodeId>, s: State, s': State, m: Message)
    requires Inv(peers, s) && DoReceiveVoteResp(s, s', m)
    ensures Inv(peers, s') && Evolves(s, s')
  {
    ReceiveVoteRespCalm(s, s', m);
    QuietMessages(peers, s, s');
    QuietIndexes(s, s');
    QuietLeaders(peers, s, s');
    QuietCommits(peers, s, s');
    CalmInv(peers, s, s');
  }

  lemma ReceiveVoteRespCalm(s: State, s': State, m: Message)
    requires DoReceiveVoteResp(s, s', m)
    ensures Calm(s, s') && SameCommits(s, s') && s'.sent == s.sent
    ensures forall i | i in s.servers :: NoNewLeader(s.servers[i], s'.servers[i])
  {
  }

  lemma LoseElectionInv(peers: set<NodeId>, s: State, s': State, i: NodeId)
    requires Inv(peers, s) && DoLoseElection(s, s', i)
    ensures Inv(peers, s') && Evolves(s, s')
  {
    LoseElectionCalm(s, s', i);
    QuietMessages(peers, s, s');
    QuietIndexes(s, s');
    QuietLeaders(peers, s, s');
    QuietCommits(peers, s, s');
    CalmInv(peers, s, s');
  }

  lemma LoseElectionCalm(s: State, s': State, i: NodeId)
    requires DoLoseElection(s, s', i)
    ensures Calm(s, s') && SameCommits(s, s') && s'.sent == s.sent
    ensures forall j | j in s.servers :: NoNewLeader(s.servers[j], s'.servers[j])
  {
  }

  lemma RestartInv(peers: set<NodeId>, s: State, s': State, i: NodeId)
    requires Inv(peers, s) && DoRestart(s, s', i)
    ensures Inv(peers, s') && Evolves(s, s')
  {
    RestartCalm(s, s', i);
    QuietMessages(peers, s, s');
    QuietIndexes(s, s');
    QuietLeaders(peers, s, s');
    QuietCommits(peers, s, s');
    CalmInv(peers, s, s');
  }

  lemma RestartCalm(s: State, s': State, i: NodeId)
    requires DoRestart(s, s', i)
    ensures Calm(s, s') && SameCommits(s, s') && s'.sent == s.sent
    ensures forall j | j in s.servers :: NoNewLeader(s.servers[j], s'.servers[j])
  {
  }

  lemma SendAppendInv(peers: set<NodeId>, s: State, s': State, i: NodeId, j: NodeId, count: nat, commit: nat)
    requires Inv(peers, s) && DoSendAppend(peers, s, s', i, j, count, commit)
    ensures Inv(peers, s') && Evolves(s, s')
  {
    SendAppendCalm(peers, s, s', i, j, count, commit);
    LeaderLeads(peers, s, i);
    assert CommitsAt(peers, s, s.servers[i]);
    SendAppendRequest(peers, s, s', i, j, count, commit);
    QuietMessages(peers, s, s');
    QuietIndexes(s, s');
    QuietLeaders(peers, s, s');
    QuietCommits(peers, s, s');
    CalmInv(peers, s, s');
  }

  lemma SendAppendCalm(peers: set<NodeId>, s: State, s': State, i: NodeId, j: NodeId, count: nat, commit: nat)
    requires DoSendAppend(peers, s, s', i, j, count, commit)
    ensures Calm(s, s') && SameCommits(s, s')
    ensures forall j | j in s.servers :: NoNewLeader(s.servers[j], s'.servers[j])
  {
  }

  lemma AllLead(peers: set<NodeId>, s: State)
    requires Shape(peers, s) && Leaders(peers, s)
    ensures forall i | i in s.servers && s.servers[i].role == Leader :: LeadsItsTerm(s, i)
  {
  }

  lemma LeaderLeads(peers: set<NodeId>, s: State, i: NodeId)
    requires Shape(peers, s) && Leaders(peers, s) && i in s.servers && s.servers[i].role == Leader
    ensures LeadsItsTerm(s, i)
  {
  }

  lemma SendAppendRequest(peers: set<NodeId>, s: State, s': State, i: NodeId, j: NodeId, count: nat, commit: nat)
    requires i in s.servers && LeadsItsTerm(s, i)
    requires CommitOk(peers, s, s.servers[i].log, s.servers[i].commit, s.servers[i].term)
    requires DoSendAppend(peers, s, s', i, j, count, commit)
    ensures forall m | m in s'.sent && m !in s.sent :: m.AppendReq? && RequestOk(peers, s, m)
  {
    NewRequest(peers, s, i, j, NextOf(s.servers[i], j) - 1, count, commit);
  }

  ghost predicate LeadsItsTerm(s: State, i: NodeId)
    requires i in s.servers
  {
    var me := s.servers[i];
    me.term in s.h.leader && s.h.leader[me.term] == i && me.term in s.h.leaderLog && s.h.leaderLog[me.term] == me.log
  }

  lemma NewRequest(peers: set<NodeId>, s: State, i: NodeId, j: NodeId, prev: nat, count: nat, commit: nat)
    requires i in s.servers && LeadsItsTerm(s, i) && commit <= s.servers[i].commit
    requires CommitOk(peers, s, s.servers[i].log, s.servers[i].commit, s.servers[i].term)
    requires prev + count <= |s.servers[i].log|
    ensures RequestOk(peers, s, RequestTo(s.servers[i], i, j, prev, count, commit))
  {
    var me := s.servers[i];
    CommitCut(peers, s, me.log, me.commit, me.term, commit);
  }

  lemma CommitCut(peers: set<NodeId>, s: State, log: Log, c: nat, term: nat, c': nat)
    requires CommitOk(peers, s, log, c, term) && c' <= c
    ensures CommitOk(peers, s, log, c', term)
  {
    if c' != 0 {
      var t: nat, k: nat :| t <= term && CoveredBy(peers, s, log, c, t, k);
      assert log[..c'] == log[..c][..c'];
      assert s.h.leaderLog[t][..c'] == s.h.leaderLog[t][..c][..c'];
      assert CoveredBy(peers, s, log, c', t, k);
    }
  }

  // ---- starting an election ----

  lemma StartElectionInv(peers: set<NodeId>, s: State, s': State, i: NodeId, preVoters: set<NodeId>)
    requires Inv(peers, s) && DoStartElection(peers, s, s', i, preVoters)
    ensures Inv(peers, s') && Evolves(s, s')
  {
    StartElectionQuiet(peers, s, s', i, preVoters);
    StartElectionVotes(peers, s, s', i, preVoters);
    StartElectionVoteMessages(peers, s, s', i, preVoters);
    StartElectionCandidacies(peers, s, s', i, preVoters);
    QuietLeaders(peers, s, s');
    QuietIndexes(s, s');
    StartElectionKeeps(peers, s, s', i, preVoters);
    QuietLogs(s, s');
    QuietCommits(peers, s, s');
    QuietKept(peers, s, s');
    QuietMessages(peers, s, s');
  }

  lemma StartElectionQuiet(peers: set<NodeId>, s: State, s': State, i: NodeId, preVoters: set<NodeId>)
    requires Votes(peers, s) && Candidacies(s) && DoStartElection(peers, s, s', i, preVoters)
    ensures Quiet(s, s') && SameCommits(s, s')
    ensures (i, s.servers[i].term + 1) !in s.h.votes && (i, s.servers[i].term + 1) !in s.h.candidateLog
    ensures forall j | j in s.servers :: NoNewLeader(s.servers[j], s'.servers[j])
    ensures forall m | m in s'.sent && (m.AppendReq? || m.AppendResp?) :: m in s.sent
  {
    NoVoteYet(peers, s, i, s.servers[i].term + 1);
    StartElectionFrame(peers, s, s', i, preVoters);
  }

  lemma NoVoteYet(peers: set<NodeId>, s: State, i: NodeId, t: nat)
    requires Votes(peers, s) && Candidacies(s) && i in s.servers && s.servers[i].term < t
    ensures (i, t) !in s.h.votes && (i, t) !in s.h.candidateLog
  {
  }

  lemma StartElectionFrame(peers: set<NodeId>, s: State, s': State, i: NodeId, preVoters: set<NodeId>)
    requires DoStartElection(peers, s, s', i, preVoters)
    requires (i, s.servers[i].term + 1) !in s.h.votes && (i, s.servers[i].term + 1) !in s.h.candidateLog
    ensures Quiet(s, s') && SameCommits(s, s')
    ensures forall j | j in s.servers :: NoNewLeader(s.servers[j], s'.servers[j])
  {
  }

  lemma StartElectionVotes(peers: set<NodeId>, s: State, s': State, i: NodeId, preVoters: set<NodeId>)
    requires Shape(peers, s) && Votes(peers, s) && DoStartElection(peers, s, s', i, preVoters)
    ensures Votes(peers, s')
  {
  }

  lemma StartElectionVoteMessages(peers: set<NodeId>, s: State, s': State, i: NodeId, preVoters: set<NodeId>)
    requires VoteMessages(s) && DoStartElection(peers, s, s', i, preVoters) && Quiet(s, s')
    ensures VoteMessages(s')
  {
  }

  lemma StartElectionCandidacies(peers: set<NodeId>, s: State, s': State, i: NodeId, preVoters: set<NodeId>)
    requires Candidacies(s) && Logs(s) && DoStartElection(peers, s, s', i, preVoters) && Quiet(s, s')
    ensures Candidacies(s')
  {
    forall c: (NodeId, nat) | c in s'.h.candidateLog
      ensures c in s'.h.votes && s'.h.votes[c] == c.0 && c.1 >= 1
              && LogOk(s'.h, s'.h.candidateLog[c]) && TermsUpTo(s'.h.candidateLog[c], c.1 - 1)
    {
      if c in s.h.candidateLog {
        assert LogOk(s.h, s.h.candidateLog[c]);
      }
      LogOkStable(s, s', s'.h.candidateLog[c]);
    }
  }

  /** The candidate votes for its own log, which keeps whatever it acknowledged. */
  lemma StartElectionKeeps(peers: set<NodeId>, s: State, s': State, i: NodeId, preVoters: set<NodeId>)
    requires AckersKeep(peers, s) && CandidatesKeep(peers, s) && Candidacies(s)
    requires DoStartElection(peers, s, s', i, preVoters) && Quiet(s, s')
    requires (i, s.servers[i].term + 1) !in s.h.votes && (i, s.servers[i].term + 1) !in s.h.candidateLog
    ensures CandidatesKeep(peers, s')
  {
    forall v: (NodeId, nat), a: (NodeId, nat, nat), k: nat | v in s'.h.votes && (s'.h.votes[v], v.1) in s'.h.candidateLog
                     && a in s'.h.acks && a.0 == v.0 && a.1 < v.1 && 1 <= k <= a.2
      ensures Kept(peers, s', s'.h.candidateLog[(s'.h.votes[v], v.1)], a.1, k)
    {
      if v == (i, s.servers[i].term + 1) {
        KeptStable(peers, s, s', s.servers[i].log, s.servers[i].log, a.1, k);
      } else {
        var log := s.h.candidateLog[(s.h.votes[v], v.1)];
        assert Kept(peers, s, log, a.1, k);
        KeptStable(peers, s, s', log, log, a.1, k);
      }
    }
  }

  // ---- answering a vote request ----

  lemma ReceiveVoteReqInv(peers: set<NodeId>, s: State, s': State, m: Message)
    requires Inv(peers, s) && DoReceiveVoteReq(s, s', m)
    ensures Inv(peers, s') && Evolves(s, s')
  {
    ReceiveVoteReqQuiet(peers, s, s', m);
    if !m.pre {
      CandidateIsPeer(peers, s, m);
    }
    ReceiveVoteReqVotes(peers, s, s', m);
    ReceiveVoteReqMessages(peers, s, s', m);
    ReceiveVoteReqCandidacies(peers, s, s', m);
    QuietLeaders(peers, s, s');
    QuietIndexes(s, s');
    ReceiveVoteReqKeeps(peers, s, s', m);
    QuietLogs(s, s');
    QuietCommits(peers, s, s');
    QuietKept(peers, s, s');
    QuietMessages(peers, s, s');
  }

  lemma ReceiveVoteReqQuiet(peers: set<NodeId>, s: State, s': State, m: Message)
    requires Shape(peers, s) && Votes(peers, s) && DoReceiveVoteReq(s, s', m)
    ensures Quiet(s, s') && SameCommits(s, s') && s'.h.candidateLog == s.h.candidateLog
    ensures forall i | i in s.servers :: NoNewLeader(s.servers[i], s'.servers[i])
    ensures forall i | i in s.servers :: s'.servers[i].role == Candidate ==> s'.servers[i] == s.servers[i]
    ensures forall m' | m' in s'.sent && (m'.AppendReq? || m'.AppendResp?) :: m' in s.sent
  {
    if !m.pre && OnVoteRequest(s.servers[m.dst], m.src, m.term, m.lastIndex, m.lastTerm, m.pre).2 {
      GrantIsFirst(peers, s, m);
    }
    ReceiveVoteReqFrame(s, s', m);
  }

  /** A granted vote repeats the vote the node already gave in that term, or is its first. */
  lemma GrantIsFirst(peers: set<NodeId>, s: State, m: Message)
    requires Shape(peers, s) && Votes(peers, s) && m.VoteReq? && m.dst in s.servers && !m.pre
    requires OnVoteRequest(s.servers[m.dst], m.src, m.term, m.lastIndex, m.lastTerm, m.pre).2
    ensures (m.dst, m.term) in s.h.votes ==> s.h.votes[(m.dst, m.term)] == m.src
  {
    var v: (NodeId, nat) := (m.dst, m.term);
    if v in s.h.votes {
      assert v.1 <= s.servers[v.0].term;
      assert s.h.votes[v] in peers;
    }
  }

  lemma ReceiveVoteReqFrame(s: State, s': State, m: Message)
    requires DoReceiveVoteReq(s, s', m)
    requires OnVoteRequest(s.servers[m.dst], m.src, m.term, m.lastIndex, m.lastTerm, m.pre).2 && !m.pre ==>
               (m.dst, m.term) in s.h.votes ==> s.h.votes[(m.dst, m.term)] == m.src
    ensures Quiet(s, s') && SameCommits(s, s')
    ensures forall i | i in s.servers :: NoNewLeader(s.servers[i], s'.servers[i])
    ensures forall i | i in s.servers :: s'.servers[i].role == Candidate ==> s'.servers[i] == s.servers[i]
  {
    VoteRequestFrame(s.servers[m.dst], m.src, m.term, m.lastIndex, m.lastTerm, m.pre);
    var (me, term, granted) := OnVoteRequest(s.servers[m.dst], m.src, m.term, m.lastIndex, m.lastTerm, m.pre);
    assert forall i | i in s.servers && i != m.dst :: s'.servers[i] == s.servers[i];
    assert s'.servers[m.dst] == me;
  }

  lemma VoteRequestFrame(s: Server, candidate: NodeId, term: nat, lastIndex: nat, lastTerm: nat, pre: bool)
    ensures var (s', _, granted) := OnVoteRequest(s, candidate, term, lastIndex, lastTerm, pre);
            && s' == s.(role := s'.role, term := s'.term, votedFor := s'.votedFor)
            && s.term <= s'.term && (s'.role == Follower || s' == s)
            && (granted && !pre ==> s'.term == term && s'.votedFor == candidate)
            && (granted && pre ==> s' == s)
            && (!granted ==> s' == s || (s.term < s'.term && s'.votedFor == NOBODY))
  {
  }

  lemma ReceiveVoteReqVotes(peers: set<NodeId>, s: State, s': State, m: Message)
    requires Shape(peers, s) && Votes(peers, s) && DoReceiveVoteReq(s, s', m)
    requires !m.pre ==> m.src in peers
    ensures Votes(peers, s')
  {
    var me := s'.servers[m.dst];
    VoteRequestFrame(s.servers[m.dst], m.src, m.term, m.lastIndex, m.lastTerm, m.pre);
    forall v: (NodeId, nat) | v in s'.h.votes
      ensures && v.0 in s'.servers && s'.h.votes[v] in peers
              && v.1 <= s'.servers[v.0].term
              && (v.1 == s'.servers[v.0].term ==> s'.servers[v.0].votedFor == s'.h.votes[v])
    {
      if v == (m.dst, m.term) && v !in s.h.votes {
        assert me.term == m.term && me.votedFor == m.src;
      } else {
        assert v in s.h.votes;
      }
    }
    forall i | i in s'.servers && s'.servers[i].votedFor != NOBODY
      ensures (i, s'.servers[i].term) in s'.h.votes && s'.h.votes[(i, s'.servers[i].term)] == s'.servers[i].votedFor
    {
      if i != m.dst {
        assert s'.servers[i] == s.servers[i];
      }
    }
  }

  lemma CandidateIsPeer(peers: set<NodeId>, s: State, m: Message)
    requires Shape(peers, s) && Votes(peers, s) && Candidacies(s) && VoteMessages(s)
    requires m in s.sent && m.VoteReq? && !m.pre
    ensures m.src in peers
  {
    var c: (NodeId, nat) := (m.src, m.term);
    assert c in s.h.candidateLog;
  }

  lemma ReceiveVoteReqMessages(peers: set<NodeId>, s: State, s': State, m: Message)
    requires VoteMessages(s) && DoReceiveVoteReq(s, s', m) && Quiet(s, s')
    ensures VoteMessages(s')
  {
  }

  lemma ReceiveVoteReqCandidacies(peers: set<NodeId>, s: State, s': State, m: Message)
    requires Candidacies(s) && VoteMessages(s) && DoReceiveVoteReq(s, s', m)
    requires Quiet(s, s') && s'.h.candidateLog == s.h.candidateLog
    requires forall i | i in s.servers :: s'.servers[i].role == Candidate ==> s'.servers[i] == s.servers[i]
    ensures Candidacies(s')
  {
    forall c: (NodeId, nat) | c in s'.h.candidateLog
      ensures c in s'.h.votes && s'.h.votes[c] == c.0 && c.1 >= 1
              && LogOk(s'.h, s'.h.candidateLog[c]) && TermsUpTo(s'.h.candidateLog[c], c.1 - 1)
    {
      assert LogOk(s.h, s.h.candidateLog[c]);
      LogOkStable(s, s', s'.h.candidateLog[c]);
    }
  }

  /** The election restriction: a log at least as new as the voter's keeps what the voter acknowledged. */
  lemma NewerLogKeeps(peers: set<NodeId>, s: State, mine: Log, theirs: Log, t: nat, k: nat)
    requires Logs(s) && LeadersKeep(peers, s)
    requires LogOk(s.h, mine) && LogOk(s.h, theirs)
    requires UpToDate(LastTerm(theirs), |theirs|, mine)
    requires Kept(peers, s, mine, t, k)
    ensures Kept(peers, s, theirs, t, k)
  {
    if OwnEntry(s.h, t, k) && !Refused(peers, s, t, k) {
      var l := s.h.leaderLog[t];
      assert l[..k] <= mine && mine[k - 1] == l[..k][k - 1];
      TermsSorted(s, mine, k - 1, |mine| - 1);
      assert |theirs| > 0;
      if LastTerm(theirs) == LastTerm(mine) {
        SameTermLongerLog(s, mine, theirs);
      } else {
        assert EntryOk(s.h, theirs, |theirs| - 1);
        assert Kept(peers, s, s.h.leaderLog[LastTerm(theirs)], t, k);
        LaterTermIsLonger(s, theirs, t, k);
      }
    }
  }

  lemma SameTermLongerLog(s: State, mine: Log, theirs: Log)
    requires LogOk(s.h, mine) && LogOk(s.h, theirs)
    requires 0 < |mine| <= |theirs| && LastTerm(mine) == LastTerm(theirs)
    ensures mine <= theirs
  {
    assert EntryOk(s.h, mine, |mine| - 1) && EntryOk(s.h, theirs, |theirs| - 1);
    assert mine[..|mine|] == mine && theirs[..|theirs|] == theirs;
  }

  /** A log whose last term is beyond t, and whose leader log holds t's prefix, holds it too. */
  lemma LaterTermIsLonger(s: State, theirs: Log, t: nat, k: nat)
    requires Logs(s) && LogOk(s.h, theirs) && |theirs| > 0
    requires OwnEntry(s.h, t, k) && t < LastTerm(theirs)
    requires LastTerm(theirs) in s.h.leaderLog && s.h.leaderLog[t][..k] <= s.h.leaderLog[LastTerm(theirs)]
    ensures s.h.leaderLog[t][..k] <= theirs
  {
    var last := |theirs| - 1;
    var l := s.h.leaderLog[LastTerm(theirs)];
    assert EntryOk(s.h, theirs, last);
    assert theirs[..last + 1] == theirs && theirs <= l;
    assert TermsUpTo(s.h.leaderLog[t], t);
    var p := s.h.leaderLog[t][..k];
    assert forall x | 0 <= x < k :: p[x].term <= t;
    assert last >= k;
  }

  lemma ReceiveVoteReqKeeps(peers: set<NodeId>, s: State, s': State, m: Message)
    requires Logs(s) && LeadersKeep(peers, s) && AckersKeep(peers, s) && CandidatesKeep(peers, s)
    requires VoteMessages(s) && Candidacies(s) && Acks(s)
    requires DoReceiveVoteReq(s, s', m) && Quiet(s, s') && s'.h.candidateLog == s.h.candidateLog
    ensures CandidatesKeep(peers, s')
  {
    forall v: (NodeId, nat), a: (NodeId, nat, nat), k: nat | v in s'.h.votes && (s'.h.votes[v], v.1) in s'.h.candidateLog
                     && a in s'.h.acks && a.0 == v.0 && a.1 < v.1 && 1 <= k <= a.2
      ensures Kept(peers, s', s'.h.candidateLog[(s'.h.votes[v], v.1)], a.1, k)
    {
      var log := s.h.candidateLog[(s'.h.votes[v], v.1)];
      if v !in s.h.votes {
        GrantedVoteKeeps(peers, s, s', m, a.1, a.2, k);
      }
      assert Kept(peers, s, log, a.1, k);
      KeptStable(peers, s, s', log, log, a.1, k);
    }
  }

  lemma GrantedVoteKeeps(peers: set<NodeId>, s: State, s': State, m: Message, t: nat, upTo: nat, k: nat)
    requires Logs(s) && LeadersKeep(peers, s) && AckersKeep(peers, s) && VoteMessages(s) && Candidacies(s)
    requires DoReceiveVoteReq(s, s', m) && (m.dst, m.term) in s'.h.votes && (m.dst, m.term) !in s.h.votes
    requires (m.dst, t, upTo) in s.h.acks && 1 <= k <= upTo
    ensures (m.src, m.term) in s.h.candidateLog && Kept(peers, s, s.h.candidateLog[(m.src, m.term)], t, k)
  {
    var mine := s.servers[m.dst].log;
    var a := (m.dst, t, upTo);
    assert Kept(peers, s, s.servers[a.0].log, a.1, k);
    NewerLogKeeps(peers, s, mine, s.h.candidateLog[(m.src, m.term)], t, k);
  }
}
