/**
 Safety of the cluster over whole runs with a fixed set of nodes: one leader per term, matching
 logs, and state machine safety.
 */
module RaftSafety {
  import opened RaftTypes
  import opened RaftProtocol
  import opened RaftInvariant
  import opened RaftQuietSteps
  import opened RaftLeaderSteps
  import opened RaftAppendSteps
  import opened RaftReplySteps

  lemma NextInv(peers: set<NodeId>, s: State, s': State)
    requires Inv(peers, s) && Next(peers, s, s')
    ensures Inv(peers, s') && Evolves(s, s')
  {
    var step :| NextStep(peers, s, s', step);
    StepInv(peers, s, s', step);
  }

  lemma StepInv(peers: set<NodeId>, s: State, s': State, step: Step)
    requires Inv(peers, s) && NextStep(peers, s, s', step)
    ensures Inv(peers, s') && Evolves(s, s')
  {
    match step
    case Timeout(i) => TimeoutInv(peers, s, s', i);
    case StartElection(i, preVoters) => StartElectionInv(peers, s, s', i, preVoters);
    case ReceiveVoteReq(m) => ReceiveVoteReqInv(peers, s, s', m);
    case ReceiveVoteResp(m) => ReceiveVoteRespInv(peers, s, s', m);
    case BecomeLeader(i, voters) => BecomeLeaderInv(peers, s, s', i, voters);
    case LeaderAppend(i, kind, data) => LeaderAppendInv(peers, s, s', i, kind, data);
    case SendAppend(i, j, count, commit) => SendAppendInv(peers, s, s', i, j, count, commit);
    case ReceiveAppendReq(m) => ReceiveAppendReqInv(peers, s, s', m);
    case ReceiveAppendResp(m) => ReceiveAppendRespInv(peers, s, s', m);
    case LoseElection(i) => LoseElectionInv(peers, s, s', i);
    case Restart(i) => RestartInv(peers, s, s', i);
  }

  lemma {:induction false} RunInv(peers: set<NodeId>, run: seq<State>, k: nat)
    requires Run(peers, run) && k < |run|
    ensures Inv(peers, run[k])
  {
    if k == 0 {
      InitInv(peers, run[0]);
    } else {
      RunInv(peers, run, k - 1);
      var j := k - 1;
      assert Next(peers, run[j], run[j + 1]);
      NextInv(peers, run[k - 1], run[k]);
    }
  }

  // ---- what a run keeps from one state to a later one ----

  /** What a node has handed to Apply is never taken back. */
  ghost predicate HandsOut(s: State, s': State) {
    s.servers.Keys == s'.servers.Keys
    && forall i | i in s.servers :: s.servers[i].handed <= s'.servers[i].handed
  }

  lemma AppendHands(me: Server, i: NodeId, peers: set<NodeId>, kind: LogType, data: seq<bv8>)
    ensures me.handed <= OnLeaderAppend(me, i, peers, kind, data).handed
  {
  }

  lemma RequestHands(me: Server, m: Message)
    requires m.AppendReq?
    ensures me.handed <= OnAppendRequest(me, m.term, m.prevIndex, m.prevTerm, m.entries, m.commit).0.handed
  {
  }

  lemma {:induction false} AdvanceHands(me: Server, i: NodeId, peers: set<NodeId>)
    ensures AdvanceCommit(me, i, peers).handed == me.handed
    decreases |me.log| - me.commit
  {
    if me.commit < |me.log| && me.log[me.commit].term == me.term
       && (1 + |Holders(me, i, peers, me.commit + 1)|) * 2 > |peers| {
      AdvanceHands(me.(commit := me.commit + 1), i, peers);
    }
  }

  lemma ReplyHands(me: Server, peers: set<NodeId>, m: Message)
    requires m.AppendResp?
    ensures me.handed <= OnAppendReply(me, m.dst, peers, m.src, m.asked, m.prevIndex, m.count, m.term, m.success).handed
  {
    AdvanceHands(Credited(me, m), m.dst, peers);
  }

  /** A step that changes one node hands out what that node hands out. */
  lemma OneHandsOut(s: State, s': State, i: NodeId)
    requires i in s.servers && i in s'.servers && s'.servers == s.servers[i := s'.servers[i]]
    requires s.servers[i].handed <= s'.servers[i].handed
    ensures HandsOut(s, s')
  {
  }

  lemma NextHands(peers: set<NodeId>, s: State, s': State, step: Step)
    requires NextStep(peers, s, s', step)
    ensures HandsOut(s, s')
  {
    match step
    case Timeout(i) => OneHandsOut(s, s', i);
    case StartElection(i, preVoters) => OneHandsOut(s, s', i);
    case ReceiveVoteReq(m) => VoteRequestHands(s, s', m);
    case ReceiveVoteResp(m) => OneHandsOut(s, s', m.dst);
    case BecomeLeader(i, voters) => OneHandsOut(s, s', i);
    case LeaderAppend(i, kind, data) => LeaderAppendHands(peers, s, s', i, kind, data);
    case SendAppend(i, j, count, commit) => OneHandsOut(s, s', i);
    case ReceiveAppendReq(m) => AppendRequestHands(s, s', m);
    case ReceiveAppendResp(m) => AppendReplyHands(peers, s, s', m);
    case LoseElection(i) => OneHandsOut(s, s', i);
    case Restart(i) => OneHandsOut(s, s', i);
  }

  lemma VoteRequestHands(s: State, s': State, m: Message)
    requires DoReceiveVoteReq(s, s', m)
    ensures HandsOut(s, s')
  {
    VoteRequestFrame(s.servers[m.dst], m.src, m.term, m.lastIndex, m.lastTerm, m.pre);
    OneHandsOut(s, s', m.dst);
  }

  lemma LeaderAppendHands(peers: set<NodeId>, s: State, s': State, i: NodeId, kind: LogType, data: seq<bv8>)
    requires DoLeaderAppend(peers, s, s', i, kind, data)
    ensures HandsOut(s, s')
  {
    AppendHands(s.servers[i], i, peers, kind, data);
    OneHandsOut(s, s', i);
  }

  lemma AppendRequestHands(s: State, s': State, m: Message)
    requires DoReceiveAppendReq(s, s', m)
    ensures HandsOut(s, s')
  {
    RequestHands(s.servers[m.dst], m);
    OneHandsOut(s, s', m.dst);
  }

  lemma AppendReplyHands(peers: set<NodeId>, s: State, s': State, m: Message)
    requires DoReceiveAppendResp(peers, s, s', m)
    ensures HandsOut(s, s')
  {
    ReplyHands(s.servers[m.dst], peers, m);
    OneHandsOut(s, s', m.dst);
  }

  lemma LaterTrans(s: State, mid: State, s': State)
    requires Later(s, mid) && Later(mid, s') && HandsOut(s, mid) && HandsOut(mid, s')
    ensures Later(s, s') && HandsOut(s, s')
  {
  }

  lemma OneHands(peers: set<NodeId>, s: State, s': State)
    requires Next(peers, s, s')
    ensures HandsOut(s, s')
  {
    var step :| NextStep(peers, s, s', step);
    NextHands(peers, s, s', step);
  }

  lemma RunStep(peers: set<NodeId>, run: seq<State>, k: nat)
    requires Run(peers, run) && 0 < k < |run|
    ensures Later(run[k - 1], run[k]) && HandsOut(run[k - 1], run[k])
  {
    RunGrows(peers, run, k);
    var j := k - 1;
    assert Next(peers, run[j], run[j + 1]);
    OneHands(peers, run[k - 1], run[k]);
  }

  lemma RunGrows(peers: set<NodeId>, run: seq<State>, k: nat)
    requires Run(peers, run) && 0 < k < |run|
    ensures Later(run[k - 1], run[k])
  {
    RunInv(peers, run, k - 1);
    var j := k - 1;
    assert Next(peers, run[j], run[j + 1]);
    NextLater(peers, run[k - 1], run[k]);
  }

  lemma NextLater(peers: set<NodeId>, s: State, s': State)
    requires Inv(peers, s) && Next(peers, s, s')
    ensures Later(s, s')
  {
    NextInv(peers, s, s');
  }

  lemma {:induction false} RunLater(peers: set<NodeId>, run: seq<State>, a: nat, b: nat)
    requires Run(peers, run) && a <= b < |run|
    ensures Later(run[a], run[b]) && HandsOut(run[a], run[b])
    decreases b
  {
    if a == b {
      LaterRefl(run[a]);
    } else {
      var s, mid, s' := run[a], run[b - 1], run[b];
      RunLater(peers, run, a, b - 1);
      RunStep(peers, run, b);
      LaterTrans(s, mid, s');
    }
  }

  lemma LaterRefl(s: State)
    ensures Later(s, s) && HandsOut(s, s)
  {
  }

  // ---- the theorems ----

  /** Election safety: in one term, over the whole run, at most one node is ever leader. */
  lemma ElectionSafety(peers: set<NodeId>, run: seq<State>, a: nat, b: nat, i: NodeId, j: NodeId)
    requires Run(peers, run) && a < |run| && b < |run| && i in peers && j in peers
    requires i in run[a].servers && j in run[b].servers
    requires run[a].servers[i].role == Leader && run[b].servers[j].role == Leader
    requires run[a].servers[i].term == run[b].servers[j].term
    ensures i == j
  {
    RunInv(peers, run, a);
    RunInv(peers, run, b);
    LeaderLeads(peers, run[a], i);
    LeaderLeads(peers, run[b], j);
    if a <= b {
      RunLater(peers, run, a, b);
    } else {
      RunLater(peers, run, b, a);
    }
  }

  /** A node votes for at most one candidate in a term, over the whole run. */
  lemma VotesOnce(peers: set<NodeId>, run: seq<State>, a: nat, b: nat, n: NodeId)
    requires Run(peers, run) && a < |run| && b < |run| && n in run[a].servers && n in run[b].servers
    requires run[a].servers[n].term == run[b].servers[n].term
    requires run[a].servers[n].votedFor != NOBODY && run[b].servers[n].votedFor != NOBODY
    ensures run[a].servers[n].votedFor == run[b].servers[n].votedFor
  {
    RunInv(peers, run, a);
    RunInv(peers, run, b);
    if a <= b {
      RunLater(peers, run, a, b);
    } else {
      RunLater(peers, run, b, a);
    }
  }

  /** Terms never decrease. */
  lemma TermsGrow(peers: set<NodeId>, run: seq<State>, a: nat, b: nat, n: NodeId)
    requires Run(peers, run) && a <= b < |run| && n in peers
    ensures n in run[a].servers && n in run[b].servers && run[a].servers[n].term <= run[b].servers[n].term
  {
    RunInv(peers, run, a);
    RunLater(peers, run, a, b);
  }

  /**
   Log matching: if two logs, of any nodes at any two moments, hold an entry with the same index
   and term, they agree on every index up to it, and neither has a gap there.
   */
  lemma LogMatching(peers: set<NodeId>, run: seq<State>, a: nat, b: nat, i: NodeId, j: NodeId, k: nat)
    requires Run(peers, run) && a < |run| && b < |run| && i in run[a].servers && j in run[b].servers
    requires k < |run[a].servers[i].log| && k < |run[b].servers[j].log|
    requires run[a].servers[i].log[k].term == run[b].servers[j].log[k].term
    ensures run[a].servers[i].log[..k + 1] == run[b].servers[j].log[..k + 1]
    ensures forall x | 0 <= x <= k :: run[a].servers[i].log[x].index == x + 1
  {
    RunInv(peers, run, a);
    RunInv(peers, run, b);
    var last := Max(a, b);
    RunLater(peers, run, a, last);
    RunLater(peers, run, b, last);
    LogOkStable(run[a], run[last], run[a].servers[i].log);
    LogOkStable(run[b], run[last], run[b].servers[j].log);
    Matching(run[last].h, run[a].servers[i].log, run[b].servers[j].log, k);
    forall x | 0 <= x <= k ensures run[a].servers[i].log[x].index == x + 1 {
      assert EntryOk(run[a].h, run[a].servers[i].log, x);
    }
  }

  /** Leader completeness: what a node regards as committed is in the log of every later leader. */
  lemma CommittedStaysInLeaders(peers: set<NodeId>, run: seq<State>, a: nat, b: nat, i: NodeId, j: NodeId)
    requires Run(peers, run) && a <= b < |run| && i in run[a].servers && j in run[b].servers
    requires run[b].servers[j].role == Leader && run[a].servers[i].term <= run[b].servers[j].term
    ensures var me := run[a].servers[i];
            me.commit <= |me.log| && me.log[..me.commit] <= run[b].servers[j].log
  {
    RunInv(peers, run, a);
    RunInv(peers, run, b);
    RunLater(peers, run, a, b);
    LeaderLeads(peers, run[b], j);
    var me := run[a].servers[i];
    assert CommitsAt(peers, run[a], me);
    CommitOkStable(peers, run[a], run[b], me.log, me.log, me.commit, me.term, me.term);
    CommittedInLeader(peers, run[b], me.log, me.commit, run[b].servers[j].term);
  }

  /** Every leader log of a term at least as new holds a covered prefix. */
  lemma CommittedInLeader(peers: set<NodeId>, s: State, log: Log, c: nat, term: nat)
    requires LeadersKeep(peers, s) && c <= |log| && term in s.h.leaderLog
    requires CommitOk(peers, s, log, c, term)
    ensures log[..c] <= s.h.leaderLog[term]
  {
    if c != 0 {
      var t: nat, k: nat :| t <= term && CoveredBy(peers, s, log, c, t, k);
      LeaderCompleteness(peers, s, t, k, term);
      assert s.h.leaderLog[t][..k][..c] == log[..c];
    }
  }

  /** Two covered prefixes are prefixes of one leader log. */
  lemma CoveredAgree(peers: set<NodeId>, s: State, log: Log, c: nat, log': Log, c': nat, x: nat)
    requires LeadersKeep(peers, s) && x < c <= |log| && x < c' <= |log'|
    requires exists u: nat :: CommitOk(peers, s, log, c, u)
    requires exists u: nat :: CommitOk(peers, s, log', c', u)
    ensures log[x] == log'[x]
  {
    var u: nat :| CommitOk(peers, s, log, c, u);
    var u': nat :| CommitOk(peers, s, log', c', u');
    var t: nat, k: nat :| t <= u && CoveredBy(peers, s, log, c, t, k);
    var t': nat, k': nat :| t' <= u' && CoveredBy(peers, s, log', c', t', k');
    var top := Max(t, t');
    LeaderCompleteness(peers, s, t, k, top);
    LeaderCompleteness(peers, s, t', k', top);
    var l := s.h.leaderLog[top];
    assert log[x] == log[..c][x] == s.h.leaderLog[t][..k][x] == l[x];
    assert log'[x] == log'[..c'][x] == s.h.leaderLog[t'][..k'][x] == l[x];
  }

  /**
   State machine safety: whatever any two nodes have handed to Apply, at any two moments of a run,
   they handed out the same entry at every index both have reached; and each node hands out the
   indexes 1, 2, 3, ... in this order.
   */
  lemma StateMachineSafety(peers: set<NodeId>, run: seq<State>, a: nat, b: nat, i: NodeId, j: NodeId, x: nat)
    requires Run(peers, run) && a < |run| && b < |run| && i in run[a].servers && j in run[b].servers
    requires x < |run[a].servers[i].handed| && x < |run[b].servers[j].handed|
    ensures run[a].servers[i].handed[x] == run[b].servers[j].handed[x]
    ensures run[a].servers[i].handed[x].index == x + 1
  {
    var last := Max(a, b);
    RunLater(peers, run, a, last);
    RunLater(peers, run, b, last);
    RunInv(peers, run, a);
    RunInv(peers, run, last);
    HandedAgree(peers, run[last], i, j, x);
  }

  lemma HandedAgree(peers: set<NodeId>, s: State, i: NodeId, j: NodeId, x: nat)
    requires Inv(peers, s) && i in s.servers && j in s.servers
    requires x < |s.servers[i].handed| && x < |s.servers[j].handed|
    ensures s.servers[i].handed[x] == s.servers[j].handed[x]
    ensures s.servers[i].handed[x].index == x + 1
  {
    var me, you := s.servers[i], s.servers[j];
    assert CommitsAt(peers, s, me) && CommitsAt(peers, s, you);
    CoveredAgree(peers, s, me.log, me.commit, you.log, you.commit, x);
    assert LogOk(s.h, me.log) && EntryOk(s.h, me.log, x);
  }

  /** What was handed to Apply stays, and grows only at its end. */
  lemma HandedOnce(peers: set<NodeId>, run: seq<State>, a: nat, b: nat, n: NodeId)
    requires Run(peers, run) && a <= b < |run| && n in run[a].servers
    ensures n in run[b].servers && run[a].servers[n].handed <= run[b].servers[n].handed
  {
    RunLater(peers, run, a, b);
  }
}
