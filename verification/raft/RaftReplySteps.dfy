/**
 The leader's side of log replication: what a reply to AppendEntries changes, and how far it lets
 the commit index advance.
 */
module RaftReplySteps {
  import opened RaftTypes
  import opened RaftProtocol
  import opened RaftInvariant
  import opened RaftQuietSteps
  import opened RaftLeaderSteps
  import opened RaftAppendSteps

  // ---- advancing the commit index ----

  /** Every peer the leader counts has acknowledged its log that far, in this term. */
  ghost predicate CountsAcks(s: State, i: NodeId, me: Server, peers: set<NodeId>) {
    && (forall p | p in peers && p != i && MatchOf(me, p) > 0 :: (p, me.term, MatchOf(me, p)) in s.h.acks)
    && (LastTerm(me.log) == me.term ==> (i, me.term, |me.log|) in s.h.acks)
  }

  /** An entry of the current term that a counted majority holds is committed. */
  lemma CountedIsCommitted(peers: set<NodeId>, s: State, i: NodeId, me: Server, k: nat)
    requires i in peers && CountsAcks(s, i, me, peers) && Logs(s) && LogOk(s.h, me.log) && TermsUpTo(me.log, me.term)
    requires me.term in s.h.leaderLog && s.h.leaderLog[me.term] == me.log
    requires 1 <= k <= |me.log| && me.log[k - 1].term == me.term
    requires (1 + |Holders(me, i, peers, k)|) * 2 > |peers|
    ensures Committed(peers, s, me.term, k)
  {
    var q := Holders(me, i, peers, k) + {i};
    assert |q| == |Holders(me, i, peers, k)| + 1;
    TermsSorted(s, me.log, k - 1, |me.log| - 1);
    assert LastTerm(me.log) == me.term;
    forall n | n in q ensures Acked(s.h, n, me.term, k) {
      if n == i {
        assert (n, me.term, |me.log|) in s.h.acks;
      } else {
        assert (n, me.term, MatchOf(me, n)) in s.h.acks;
      }
    }
    assert Majority(q, peers) && Accepters(s.h, q, me.term, k);
  }

  lemma {:induction false} AdvanceCommits(peers: set<NodeId>, s: State, i: NodeId, me: Server)
    requires i in peers && CountsAcks(s, i, me, peers) && Logs(s) && LogOk(s.h, me.log) && TermsUpTo(me.log, me.term)
    requires me.term in s.h.leaderLog && s.h.leaderLog[me.term] == me.log
    requires me.commit <= |me.log| && CommitOk(peers, s, me.log, me.commit, me.term)
    ensures CommitOk(peers, s, me.log, AdvanceCommit(me, i, peers).commit, me.term)
    decreases |me.log| - me.commit
  {
    if me.commit < |me.log| && me.log[me.commit].term == me.term
       && (1 + |Holders(me, i, peers, me.commit + 1)|) * 2 > |peers| {
      CountedIsCommitted(peers, s, i, me, me.commit + 1);
      assert CoveredBy(peers, s, me.log, me.commit + 1, me.term, me.commit + 1);
      AdvanceCommits(peers, s, i, me.(commit := me.commit + 1));
    }
  }

  // ---- the step ----

  /** The reply was sent for the term its receiver still leads. */
  ghost predicate CountsFor(s: State, m: Message) {
    && m.AppendResp? && m.dst in s.servers
    && s.servers[m.dst].role == Leader && m.term == m.asked == s.servers[m.dst].term
  }

  /** The leader with the indexes a successful reply gives, before it advances the commit index. */
  function Credited(me: Server, m: Message): Server
    requires m.AppendResp?
  {
    if m.count > 0 then
      me.(nextIndex := me.nextIndex[m.src := m.prevIndex + m.count + 1],
          matchIndex := me.matchIndex[m.src := m.prevIndex + m.count])
    else
      me.(nextIndex := me.nextIndex[m.src := m.prevIndex + 1])
  }

  lemma ReceiveAppendRespInv(peers: set<NodeId>, s: State, s': State, m: Message)
    requires Inv(peers, s) && DoReceiveAppendResp(peers, s, s', m)
    ensures Inv(peers, s') && Evolves(s, s')
  {
    if !CountsFor(s, m) {
      StaleReplyInv(peers, s, s', m);
    } else if m.success {
      SuccessInv(peers, s, s', m);
    } else {
      RefusalInv(peers, s, s', m);
    }
  }

  lemma ReplyFacts(peers: set<NodeId>, s: State, m: Message)
    requires AppendMessages(peers, s) && m in s.sent && m.AppendResp?
    ensures ReplyOk(s, m)
  {
  }

  /** A reply from another term changes nothing, or makes the node a follower. */
  lemma StaleReplyInv(peers: set<NodeId>, s: State, s': State, m: Message)
    requires Inv(peers, s) && DoReceiveAppendResp(peers, s, s', m) && !CountsFor(s, m)
    ensures Inv(peers, s') && Evolves(s, s')
  {
    StaleReplyCalm(peers, s, s', m);
    QuietMessages(peers, s, s');
    QuietIndexes(s, s');
    QuietLeaders(peers, s, s');
    QuietCommits(peers, s, s');
    CalmInv(peers, s, s');
  }

  lemma StaleReplyCalm(peers: set<NodeId>, s: State, s': State, m: Message)
    requires DoReceiveAppendResp(peers, s, s', m) && !CountsFor(s, m)
    ensures Calm(s, s') && SameCommits(s, s') && s'.sent == s.sent
    ensures forall j | j in s.servers :: NoNewLeader(s.servers[j], s'.servers[j])
  {
    StaleReplyFrame(s.servers[m.dst], peers, m);
    var me := s'.servers[m.dst];
    assert TermChange(s.servers[m.dst], me) && NoNewLeader(s.servers[m.dst], me);
  }

  lemma StaleReplyFrame(me: Server, peers: set<NodeId>, m: Message)
    requires m.AppendResp? && !(me.role == Leader && m.term == m.asked == me.term)
    ensures var me' := OnAppendReply(me, m.dst, peers, m.src, m.asked, m.prevIndex, m.count, m.term, m.success);
            me' == me || me' == StepDown(me, m.term)
  {
  }

  /** Only the leader's indexes and what it commits and hands out change. */
  ghost predicate Tallied(s: State, s': State, i: NodeId) {
    && i in s.servers && s.servers[i].role == Leader
    && s'.sent == s.sent && s'.h == s.h
    && s'.servers.Keys == s.servers.Keys
    && (forall j | j in s.servers && j != i :: s'.servers[j] == s.servers[j])
    && s'.servers[i] == s.servers[i].(nextIndex := s'.servers[i].nextIndex, matchIndex := s'.servers[i].matchIndex,
                                      commit := s'.servers[i].commit, applied := s'.servers[i].applied,
                                      handed := s'.servers[i].handed)
  }

  lemma TalliedCalm(s: State, s': State, i: NodeId)
    requires Tallied(s, s', i)
    ensures Calm(s, s')
  {
  }

  lemma TalliedLeaders(peers: set<NodeId>, s: State, s': State, i: NodeId)
    requires Shape(peers, s) && Leaders(peers, s) && Tallied(s, s', i)
    ensures Leaders(peers, s')
  {
    TalliedCalm(s, s', i);
    forall t | t in s'.h.leader ensures Elected(peers, s', t) {
      assert Elected(peers, s, t);
      ElectedStable(peers, s, s', t);
    }
  }

  lemma TalliedInv(peers: set<NodeId>, s: State, s': State, i: NodeId)
    requires Inv(peers, s) && Tallied(s, s', i) && LeaderIndexes(s') && CommitsAt(peers, s, s'.servers[i])
    ensures Inv(peers, s') && Evolves(s, s')
  {
    TalliedCalm(s, s', i);
    QuietMessages(peers, s, s');
    TalliedLeaders(peers, s, s', i);
    TalliedCommits(peers, s, s', i);
    CalmInv(peers, s, s');
  }

  lemma TalliedCommits(peers: set<NodeId>, s: State, s': State, i: NodeId)
    requires Commits(peers, s) && Tallied(s, s', i) && Calm(s, s') && CommitsAt(peers, s, s'.servers[i])
    ensures Commits(peers, s')
  {
    OthersCommit(peers, s, s', i);
    var me := s'.servers[i];
    CommitOkStable(peers, s, s', me.log, me.log, me.commit, me.term, me.term);
  }

  lemma TalliedIndexes(s: State, s': State, i: NodeId)
    requires LeaderIndexes(s) && Tallied(s, s', i)
    requires forall p | p in s.servers && p != i ::
               && 1 <= NextOf(s'.servers[i], p) <= |s.servers[i].log| + 1
               && (MatchOf(s'.servers[i], p) > 0 ==> (p, s.servers[i].term, MatchOf(s'.servers[i], p)) in s.h.acks)
    ensures LeaderIndexes(s')
  {
  }

  /** A refused request only moves nextIndex back, never below 1. */
  lemma RefusalInv(peers: set<NodeId>, s: State, s': State, m: Message)
    requires Inv(peers, s) && DoReceiveAppendResp(peers, s, s', m) && CountsFor(s, m) && !m.success
    ensures Inv(peers, s') && Evolves(s, s')
  {
    RefusalTallied(peers, s, s', m);
    TalliedIndexes(s, s', m.dst);
    assert CommitsAt(peers, s, s.servers[m.dst]);
    TalliedInv(peers, s, s', m.dst);
  }

  lemma RefusalTallied(peers: set<NodeId>, s: State, s': State, m: Message)
    requires LeaderIndexes(s) && DoReceiveAppendResp(peers, s, s', m) && CountsFor(s, m) && !m.success
    ensures Tallied(s, s', m.dst)
    ensures s'.servers[m.dst] == s.servers[m.dst].(nextIndex := s'.servers[m.dst].nextIndex)
    ensures forall p | p in s.servers && p != m.dst ::
              && 1 <= NextOf(s'.servers[m.dst], p) <= |s.servers[m.dst].log| + 1
              && (MatchOf(s'.servers[m.dst], p) > 0 ==> (p, s.servers[m.dst].term, MatchOf(s'.servers[m.dst], p)) in s.h.acks)
  {
  }

  lemma SuccessInv(peers: set<NodeId>, s: State, s': State, m: Message)
    requires Inv(peers, s) && DoReceiveAppendResp(peers, s, s', m) && CountsFor(s, m) && m.success
    ensures Inv(peers, s') && Evolves(s, s')
  {
    var i := m.dst;
    ReplyFacts(peers, s, m);
    LeaderLeads(peers, s, i);
    CreditedIndexes(s, i, m);
    assert CommitsAt(peers, s, s.servers[i]);
    SuccessShape(peers, s, s', m);
    CreditedCommits(peers, s, i, m);
    TalliedIndexes(s, s', i);
    TalliedInv(peers, s, s', i);
  }

  /** What LeaderIndexes asks of one leader, seen from its state. */
  ghost predicate IndexesOk(s: State, i: NodeId, me: Server) {
    && (forall p | p in s.servers && p != i ::
          && 1 <= NextOf(me, p) <= |me.log| + 1
          && (MatchOf(me, p) > 0 ==> (p, me.term, MatchOf(me, p)) in s.h.acks))
    && (LastTerm(me.log) == me.term ==> (i, me.term, |me.log|) in s.h.acks)
  }

  lemma CreditedIndexes(s: State, i: NodeId, m: Message)
    requires LeaderIndexes(s) && CountsFor(s, m) && i == m.dst && ReplyOk(s, m) && m.success
    requires LeadsItsTerm(s, i)
    ensures IndexesOk(s, i, Credited(s.servers[i], m))
  {
  }

  lemma SuccessShape(peers: set<NodeId>, s: State, s': State, m: Message)
    requires DoReceiveAppendResp(peers, s, s', m) && CountsFor(s, m) && m.success
    requires s.servers[m.dst].commit <= |s.servers[m.dst].log|
    requires IndexesOk(s, m.dst, Credited(s.servers[m.dst], m))
    ensures Tallied(s, s', m.dst)
    ensures s'.servers[m.dst] == Collect(AdvanceCommit(Credited(s.servers[m.dst], m), m.dst, peers))
    ensures forall p | p in s.servers && p != m.dst ::
              && 1 <= NextOf(s'.servers[m.dst], p) <= |s.servers[m.dst].log| + 1
              && (MatchOf(s'.servers[m.dst], p) > 0 ==> (p, s.servers[m.dst].term, MatchOf(s'.servers[m.dst], p)) in s.h.acks)
  {
    var me := Credited(s.servers[m.dst], m);
    AdvanceCommitBound(me, m.dst, peers);
    var me' := s'.servers[m.dst];
    assert me'.nextIndex == me.nextIndex && me'.matchIndex == me.matchIndex;
  }

  lemma CreditedCommits(peers: set<NodeId>, s: State, i: NodeId, m: Message)
    requires Shape(peers, s) && Logs(s) && CountsFor(s, m) && i == m.dst && LeadsItsTerm(s, i)
    requires IndexesOk(s, i, Credited(s.servers[i], m)) && CommitsAt(peers, s, s.servers[i])
    ensures CommitsAt(peers, s, Collect(AdvanceCommit(Credited(s.servers[i], m), i, peers)))
  {
    var me := Credited(s.servers[i], m);
    assert LogOk(s.h, me.log) && TermsUpTo(me.log, me.term);
    AdvanceCommitBound(me, i, peers);
    AdvanceCommits(peers, s, i, me);
    CollectOk(AdvanceCommit(me, i, peers), Collect(AdvanceCommit(me, i, peers)));
  }
}
