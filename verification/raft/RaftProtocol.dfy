/**
 The cluster as a state machine: a fixed set of nodes, the set of all messages ever sent, and one
 step for each region the program runs under a node's lock.  A message in `sent` may be received
 any number of times, in any order, or never, which covers loss, duplication and reordering.

 `h` records history no step reads.  Where a step follows the intended reading instead of the
 text of the program, its comment says so; RaftIntended.dfy proves when the two agree.
 */
module RaftProtocol {
  import opened RaftTypes

  // votes:        who (node, term) voted for
  // candidateLog: the log with which (node, term) started its election
  // leader:       who won the term; leaderLog: that leader's log, which only grows
  // acks:         (node, term, index) held the term leader's log up to index while in that term
  datatype History = History(
    votes: map<(NodeId, nat), NodeId>,
    candidateLog: map<(NodeId, nat), Log>,
    leader: map<nat, NodeId>,
    leaderLog: map<nat, Log>,
    acks: set<(NodeId, nat, nat)>)

  function WithVote(h: History, n: NodeId, t: nat, c: NodeId): History {
    h.(votes := h.votes[(n, t) := c])
  }

  function WithCandidate(h: History, n: NodeId, t: nat, log: Log): History {
    WithVote(h, n, t, n).(candidateLog := h.candidateLog[(n, t) := log])
  }

  function WithLeader(h: History, n: NodeId, t: nat, log: Log): History {
    h.(leader := h.leader[t := n], leaderLog := h.leaderLog[t := log])
  }

  function WithLeaderLog(h: History, t: nat, log: Log): History {
    h.(leaderLog := h.leaderLog[t := log])
  }

  function WithAck(h: History, n: NodeId, t: nat, index: nat): History {
    h.(acks := h.acks + {(n, t, index)})
  }

  datatype State = State(servers: map<NodeId, Server>, sent: set<Message>, h: History)

  datatype Step =
    | Timeout(i: NodeId)
    | StartElection(i: NodeId, preVoters: set<NodeId>)
    | ReceiveVoteReq(m: Message)
    | ReceiveVoteResp(m: Message)
    | BecomeLeader(i: NodeId, voters: set<NodeId>)
    | LeaderAppend(i: NodeId, kind: LogType, data: seq<bv8>)
    | SendAppend(i: NodeId, j: NodeId, count: nat, commit: nat)
    | ReceiveAppendReq(m: Message)
    | ReceiveAppendResp(m: Message)
    | LoseElection(i: NodeId)
    | Restart(i: NodeId)

  const NewServer := Server(Follower, 0, NOBODY, [], 0, 0, map[], map[], [])

  ghost predicate Init(peers: set<NodeId>, s: State) {
    && NOBODY !in peers && peers != {}
    && s.servers == (map i | i in peers :: NewServer)
    && s.sent == {}
    && s.h == History(map[], map[], map[], map[], {})
  }

  /** The election timer fires: the node asks every peer whether it would win the next term. */
  ghost predicate DoTimeout(peers: set<NodeId>, s: State, s': State, i: NodeId) {
    && i in s.servers
    && var me := s.servers[i];
    s' == s.(sent := s.sent + set j | j in peers && j != i :: VoteReq(i, j, me.term + 1, |me.log|, LastTerm(me.log), true))
  }

  /** A majority of pre-votes, its own included: the node becomes a candidate and votes for itself. */
  ghost predicate DoStartElection(peers: set<NodeId>, s: State, s': State, i: NodeId, preVoters: set<NodeId>) {
    && i in s.servers
    && preVoters <= peers - {i}
    && (forall p | p in preVoters :: exists asked, term :: VoteResp(p, i, asked, true, term, true) in s.sent)
    && (1 + |preVoters|) * 2 > |peers|
    && var me := OnElection(s.servers[i], i);
    s' == s.(
      servers := s.servers[i := me],
      sent := s.sent + set j | j in peers && j != i :: VoteReq(i, j, me.term, |me.log|, LastTerm(me.log), false),
      h := WithCandidate(s.h, i, me.term, me.log))
  }

  ghost predicate DoReceiveVoteReq(s: State, s': State, m: Message) {
    && m in s.sent && m.VoteReq? && m.dst in s.servers
    && var (me, term, granted) := OnVoteRequest(s.servers[m.dst], m.src, m.term, m.lastIndex, m.lastTerm, m.pre);
    s' == s.(
      servers := s.servers[m.dst := me],
      sent := s.sent + {VoteResp(m.dst, m.src, m.term, m.pre, term, granted)},
      h := if granted && !m.pre then WithVote(s.h, m.dst, m.term, m.src) else s.h)
  }

  /**
   A vote or pre-vote reply carries a newer term.  Intended reading: the term is adopted only when
   it is newer than the node's term at this moment.
   */
  ghost predicate DoReceiveVoteResp(s: State, s': State, m: Message) {
    && m in s.sent && m.VoteResp? && m.dst in s.servers
    && s' == s.(servers := s.servers[m.dst := AdoptTerm(s.servers[m.dst], m.term)])
  }

  /**
   A majority granted this candidate its vote.  Intended reading: the node is still a candidate in
   the term of those votes.
   */
  ghost predicate DoBecomeLeader(peers: set<NodeId>, s: State, s': State, i: NodeId, voters: set<NodeId>) {
    && i in s.servers
    && var me := s.servers[i];
    && me.role == Candidate
    && voters <= peers - {i}
    && (forall p | p in voters :: VoteResp(p, i, me.term, false, me.term, true) in s.sent)
    && (1 + |voters|) * 2 > |peers|
    && s' == s.(
      servers := s.servers[i := OnElected(me, i, peers)],
      h := WithLeader(s.h, i, me.term, me.log))
  }

  /**
   A leader appends a NoOp on election or a proposed command.  Intended reading: the node is leader
   at the moment it appends.
   */
  ghost predicate DoLeaderAppend(peers: set<NodeId>, s: State, s': State, i: NodeId, kind: LogType, data: seq<bv8>) {
    && i in s.servers
    && s.servers[i].role == Leader
    && var me := OnLeaderAppend(s.servers[i], i, peers, kind, data);
    s' == s.(
      servers := s.servers[i := me],
      h := WithAck(WithLeaderLog(s.h, me.term, me.log), i, me.term, |me.log|))
  }

  function RequestTo(me: Server, i: NodeId, j: NodeId, prev: nat, count: nat, commit: nat): Message
    requires prev + count <= |me.log|
  {
    AppendReq(i, j, me.term, prev, TermAt(me.log, prev), me.log[prev..prev + count], commit)
  }

  /**
   replicateToPeer sends the entries after nextIndex - 1, cut to one batch, with a commit index
   read earlier.  Intended reading: the sender leads the term it puts in the request.
   */
  ghost predicate DoSendAppend(peers: set<NodeId>, s: State, s': State, i: NodeId, j: NodeId, count: nat, commit: nat) {
    && i in s.servers && j in peers && j != i
    && var me := s.servers[i];
    && me.role == Leader
    && 1 <= NextOf(me, j) <= |me.log| + 1
    && var prev := NextOf(me, j) - 1;
    && prev + count <= |me.log|
    && (count == 0 ==> prev == |me.log|)
    && commit <= me.commit
    && s' == s.(sent := s.sent + {RequestTo(me, i, j, prev, count, commit)})
  }

  ghost predicate DoReceiveAppendReq(s: State, s': State, m: Message) {
    && m in s.sent && m.AppendReq? && m.dst in s.servers
    && var (me, term, success) := OnAppendRequest(s.servers[m.dst], m.term, m.prevIndex, m.prevTerm, m.entries, m.commit);
    s' == s.(
      servers := s.servers[m.dst := me],
      sent := s.sent + {AppendResp(m.dst, m.src, m.term, m.prevIndex, |m.entries|, term, success)},
      h := if success then WithAck(s.h, m.dst, m.term, m.prevIndex + |m.entries|) else s.h)
  }

  ghost predicate DoReceiveAppendResp(peers: set<NodeId>, s: State, s': State, m: Message) {
    && m in s.sent && m.AppendResp? && m.dst in s.servers
    && s' == s.(servers := s.servers[m.dst :=
                OnAppendReply(s.servers[m.dst], m.dst, peers, m.src, m.asked, m.prevIndex, m.count, m.term, m.success)])
  }

  ghost predicate DoLoseElection(s: State, s': State, i: NodeId) {
    && i in s.servers
    && s' == s.(servers := s.servers[i := OnLostElection(s.servers[i])])
  }

  ghost predicate DoRestart(s: State, s': State, i: NodeId) {
    && i in s.servers
    && s' == s.(servers := s.servers[i := OnRestart(s.servers[i])])
  }

  ghost predicate NextStep(peers: set<NodeId>, s: State, s': State, step: Step) {
    match step
    case Timeout(i) => DoTimeout(peers, s, s', i)
    case StartElection(i, preVoters) => DoStartElection(peers, s, s', i, preVoters)
    case ReceiveVoteReq(m) => DoReceiveVoteReq(s, s', m)
    case ReceiveVoteResp(m) => DoReceiveVoteResp(s, s', m)
    case BecomeLeader(i, voters) => DoBecomeLeader(peers, s, s', i, voters)
    case LeaderAppend(i, kind, data) => DoLeaderAppend(peers, s, s', i, kind, data)
    case SendAppend(i, j, count, commit) => DoSendAppend(peers, s, s', i, j, count, commit)
    case ReceiveAppendReq(m) => DoReceiveAppendReq(s, s', m)
    case ReceiveAppendResp(m) => DoReceiveAppendResp(peers, s, s', m)
    case LoseElection(i) => DoLoseElection(s, s', i)
    case Restart(i) => DoRestart(s, s', i)
  }

  ghost predicate Next(peers: set<NodeId>, s: State, s': State) {
    exists step :: NextStep(peers, s, s', step)
  }

  /** A run: any finite number of steps from the initial state. */
  ghost predicate Run(peers: set<NodeId>, run: seq<State>) {
    && |run| > 0
    && Init(peers, run[0])
    && forall k {:trigger Next(peers, run[k], run[k + 1])} | 0 <= k < |run| - 1 :: Next(peers, run[k], run[k + 1])
  }
}
