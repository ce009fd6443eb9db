/**
 The cluster as the program is written: nodes of RaftStore.dfy, the messages sent, and one region of
 the program at a time, each doing what its text says.  Where every region of a run meets the
 condition under which RaftIntended.dfy finds text and protocol alike, the run is a run of the
 protocol, and its safety theorems hold of the program's own nodes.
 */
module RaftText {
  import opened RaftTypes
  import opened RaftProtocol
  import opened RaftInvariant
  import opened RaftSafety
  import opened RaftStore
  import opened RaftIntended

  datatype Cluster = Cluster(nodes: map<NodeId, NodeState>, sent: set<Message>)

  // What was read before the region's lock was taken is a field: the term a vote was asked in, the
  // term an election won, the last index of becomeLeader, the term and commit index of a heartbeat.
  datatype Region =
    | AskVotes(i: NodeId)
    | Stand(i: NodeId, preVoters: set<NodeId>)
    | AnswerVote(m: Message)
    | HearTerm(m: Message, known: nat)
    | Win(i: NodeId, voters: set<NodeId>, term: nat)
    | AppendNoOp(i: NodeId, lastIndex: nat)
    | Propose(i: NodeId, data: seq<bv8>)
    | Replicate(i: NodeId, j: NodeId, term: nat, commit: nat)
    | AnswerAppend(m: Message)
    | HearReply(m: Message)
    | GiveUp(i: NodeId)
    | Reboot(i: NodeId)

  const NewNode := NodeState(Follower, 0, NOBODY, map[], 0, 0, map[], map[], [])

  function VoteRequests(n: NodeState, peers: set<NodeId>, i: NodeId, term: nat, pre: bool): set<Message> {
    set j | j in peers && j != i :: VoteReq(i, j, term, LastIndex(n.log), LastTermIn(n.log), pre)
  }

  /** The cluster once this node is in its new state and these messages are sent. */
  function Changed(w: Cluster, i: NodeId, n: NodeState, messages: set<Message>): Cluster {
    Cluster(w.nodes[i := n], w.sent + messages)
  }

  function HearsReply(n: NodeState, peers: set<NodeId>, m: Message): NodeState
    requires m.AppendResp?
  {
    AppendReply(n, m.dst, peers, m.src, m.asked, m.prevIndex, m.count, m.term, m.success)
  }

  ghost predicate IsMajority(peers: set<NodeId>, i: NodeId, others: set<NodeId>) {
    others <= peers - {i} && (1 + |others|) * 2 > |peers|
  }

  // ---- what the text of a region does ----

  function NodeAt(r: Region): NodeId {
    match r
    case AnswerVote(m) => m.dst
    case HearTerm(m, _) => m.dst
    case AnswerAppend(m) => m.dst
    case HearReply(m) => m.dst
    case _ => r.i
  }

  /** The messages the region acts on have been sent. */
  ghost predicate Received(peers: set<NodeId>, w: Cluster, r: Region) {
    match r
    case Stand(i, preVoters) =>
      IsMajority(peers, i, preVoters) && forall p | p in preVoters :: exists asked, term :: VoteResp(p, i, asked, true, term, true) in w.sent
    case AnswerVote(m) => m in w.sent && m.VoteReq?
    case HearTerm(m, known) => m in w.sent && m.VoteResp? && m.asked == known + (if m.pre then 1 else 0) && m.term > known
    case Win(i, voters, term) => IsMajority(peers, i, voters) && forall p | p in voters :: VoteResp(p, i, term, false, term, true) in w.sent
    case AnswerAppend(m) => m in w.sent && m.AppendReq?
    case HearReply(m) => m in w.sent && m.AppendResp?
    case Replicate(i, j, _, _) => j in peers && j != i
    case _ => true
  }

  ghost predicate Does(peers: set<NodeId>, w: Cluster, w': Cluster, r: Region) {
    && NodeAt(r) in w.nodes && Received(peers, w, r)
    && var n := w.nodes[NodeAt(r)];
    match r
    case AskVotes(i) => w' == Changed(w, i, n, VoteRequests(n, peers, i, n.term + 1, true))
    case Stand(i, _) => w' == Changed(w, i, Candidacy(n, i), VoteRequests(n, peers, i, n.term + 1, false))
    case AnswerVote(m) =>
      var (n', term, granted) := HandleVote(n, m.src, m.term, m.lastIndex, m.lastTerm, m.pre);
      w' == Changed(w, m.dst, n', {VoteResp(m.dst, m.src, m.term, m.pre, term, granted)})
    case HearTerm(m, known) => w' == Changed(w, m.dst, VoteReply(n, known, m.term), {})
    case Win(i, _, _) => w' == Changed(w, i, TakeOffice(n, i, peers), {})
    case AppendNoOp(i, lastIndex) => w' == Changed(w, i, StoreNoOp(n, i, peers, lastIndex), {})
    case Propose(i, data) => w' == Changed(w, i, StoreProposal(n, i, peers, data), {})
    case Replicate(i, j, term, commit) => StoredNext(n, j) >= 1 && w' == Changed(w, i, n, {Request(n, i, j, term, commit)})
    case AnswerAppend(m) =>
      var (n', term, success) := HandleAppend(n, m.term, m.prevIndex, m.prevTerm, m.entries, m.commit);
      w' == Changed(w, m.dst, n', {AppendResp(m.dst, m.src, m.term, m.prevIndex, |m.entries|, term, success)})
    case HearReply(m) => w' == Changed(w, m.dst, HearsReply(n, peers, m), {})
    case GiveUp(i) => w' == Changed(w, i, ElectionLost(n), {})
    case Reboot(i) => w' == Changed(w, i, n.(role := Follower, nextIndex := map[], matchIndex := map[]), {})
  }

  // ---- when a region is undisturbed ----

  predicate NoStoredConflict(n: NodeState, entries: seq<LogEntry>) {
    forall i | 0 <= i < |entries| && entries[i].index in n.log :: n.log[entries[i].index].term == entries[i].term
  }

  predicate CommitCovered(n: NodeState, m: Message)
    requires m.AppendReq?
  {
    var covered := m.prevIndex + |m.entries|;
    m.commit <= n.commit || m.commit <= covered || LastIndex(n.log) <= Max(n.commit, covered)
  }

  /** Crediting the peer changes nothing and nothing more can be committed, or there is nowhere to go back to. */
  predicate ReplyIsIdle(n: NodeState, peers: set<NodeId>, m: Message)
    requires m.AppendResp?
  {
    if !m.success then
      StoredNext(n, m.src) <= 1
    else
      && n.nextIndex == n.nextIndex[m.src := m.prevIndex + m.count + 1]
      && (m.count > 0 ==> n.matchIndex == n.matchIndex[m.src := m.prevIndex + m.count])
      && !Committable(n, m.dst, peers)
  }

  /** What was read before the lock was taken still holds, and a request to append meets no conflict and covers what it commits. */
  predicate Undisturbed(peers: set<NodeId>, n: NodeState, r: Region) {
    match r
    case HearTerm(m, _) => m.term > n.term || (m.term == n.term && n.votedFor == NOBODY && n.role == Follower)
    case Win(_, _, term) => n.role == Leader || (n.role == Candidate && n.term == term)
    case AppendNoOp(_, lastIndex) => n.role == Leader && lastIndex == LastIndex(n.log)
    case Propose(_, _) => n.role == Leader
    case Replicate(_, _, term, commit) => n.role == Leader && term == n.term && commit <= n.commit
    case AnswerAppend(m) =>
      m.AppendReq? ==>
        || m.term < n.term || !PrevFound(n.log, m.prevIndex, m.prevTerm)
        || (NoStoredConflict(n, m.entries) && CommitCovered(n, m))
    case HearReply(m) =>
      m.AppendResp? ==> m.term != m.asked || n.role != Leader || n.term == m.asked || ReplyIsIdle(n, peers, m)
    case _ => true
  }

  // ---- the one way back ----

  /** A leader may commit an index: its entry is of the current term, and this node and peers that are a majority have it. */
  ghost predicate IsReplicated(n: NodeState, self: NodeId, peers: set<NodeId>, index: nat) {
    index in n.log && n.log[index].term == n.term
    && |{self} + set p | p in peers && p in n.matchIndex && n.matchIndex[p] >= index| * 2 > |peers|
  }

  lemma CommittableIsReplicated(n: NodeState, self: NodeId, peers: set<NodeId>)
    ensures Committable(n, self, peers) <==> IsReplicated(n, self, peers, n.commit + 1)
  {
    var held := HoldersIn(n, self, peers, n.commit + 1);
    assert {self} + (set p | p in peers && p in n.matchIndex && n.matchIndex[p] >= n.commit + 1) == {self} + held && self !in held;
  }

  /** advanceCommitIndex commits one replicated index after the other, and stops at the first that is not. */
  lemma {:induction false} AdvanceCommitsReplicated(n: NodeState, self: NodeId, peers: set<NodeId>)
    ensures var m := AdvanceStore(n, self, peers);
            && m == n.(commit := m.commit) && n.commit <= m.commit
            && (forall k | n.commit < k <= m.commit :: IsReplicated(n, self, peers, k))
            && !IsReplicated(n, self, peers, m.commit + 1)
    decreases LastIndex(n.log) - n.commit
  {
    CommittableIsReplicated(n, self, peers);
    AdvanceStoreStep(n, self, peers);
    if Committable(n, self, peers) {
      var next := n.(commit := n.commit + 1);
      AdvanceCommitsReplicated(next, self, peers);
      SameReplicated(n, next, self, peers);
    }
  }

  lemma SameReplicated(n: NodeState, m: NodeState, self: NodeId, peers: set<NodeId>)
    requires m == n.(commit := m.commit)
    ensures forall k :: IsReplicated(m, self, peers, k) <==> IsReplicated(n, self, peers, k)
  {
  }

  lemma {:induction false} AdvanceStoreFrame(n: NodeState, self: NodeId, peers: set<NodeId>)
    ensures AdvanceStore(n, self, peers) == n.(commit := AdvanceStore(n, self, peers).commit)
    decreases LastIndex(n.log) - n.commit
  {
    if Committable(n, self, peers) {
      AdvanceStoreFrame(n.(commit := n.commit + 1), self, peers);
    }
  }

  lemma CommitAloneKeepsTerm(n: NodeState, peers: set<NodeId>, index: nat)
    ensures CommitAlone(n, peers, index).term == n.term
  {
    CollectStoreFrame(n.(commit := index));
  }

  lemma ReplyKeepsTerm(n: NodeState, peers: set<NodeId>, m: Message)
    requires m.AppendResp?
    ensures HearsReply(n, peers, m).term >= n.term
  {
    var n1 :=
      if m.count > 0 then
        n.(nextIndex := n.nextIndex[m.src := m.prevIndex + m.count + 1], matchIndex := n.matchIndex[m.src := m.prevIndex + m.count])
      else
        n.(nextIndex := n.nextIndex[m.src := m.prevIndex + 1]);
    AdvanceStoreFrame(n1, m.dst, peers);
    CollectStoreFrame(AdvanceStore(n1, m.dst, peers));
  }

  lemma AppendKeepsTerm(n: NodeState, m: Message)
    requires m.AppendReq?
    ensures HandleAppend(n, m.term, m.prevIndex, m.prevTerm, m.entries, m.commit).0.term >= n.term
  {
    var n1 := Adopted(n, m.term).(role := Follower);
    var n2 := n1.(log := StoreEntries(n1.log, m.entries));
    CollectStoreFrame(n2.(commit := Min(m.commit, LastIndex(n2.log))));
  }

  /** In whatever state the cluster is, a node's term goes back exactly when it hears of a term that is news to the
      election that asked, but older than its own. */
  lemma TermGoesBackIff(peers: set<NodeId>, w: Cluster, w': Cluster, r: Region)
    requires Does(peers, w, w', r)
    ensures NodeAt(r) in w'.nodes
    ensures w'.nodes[NodeAt(r)].term < w.nodes[NodeAt(r)].term <==> r.HearTerm? && r.m.term < w.nodes[NodeAt(r)].term
  {
    var n := w.nodes[NodeAt(r)];
    match r
    case AppendNoOp(i, lastIndex) =>
      var entry := LogEntry(lastIndex + 1, n.term, LogNoOp, []);
      CommitAloneKeepsTerm(n.(log := n.log[entry.index := entry], matchIndex := n.matchIndex[i := entry.index]), peers, entry.index);
    case Propose(i, data) =>
      var entry := LogEntry(LastIndex(n.log) + 1, n.term, LogCommand, data);
      CommitAloneKeepsTerm(n.(log := n.log[entry.index := entry], matchIndex := n.matchIndex[i := entry.index],
                              nextIndex := n.nextIndex[i := entry.index + 1]), peers, entry.index);
    case AnswerAppend(m) => AppendKeepsTerm(n, m);
    case HearReply(m) => ReplyKeepsTerm(n, peers, m);
    case _ =>
  }

  // ---- one region is one step ----

  /** The program's nodes are those of the protocol state, with logs without gaps. */
  ghost predicate IsOf(w: Cluster, s: State) {
    && w.sent == s.sent && w.nodes.Keys == s.servers.Keys
    && forall i | i in s.servers :: w.nodes[i] == NodeOf(s.servers[i])
  }

  lemma ChangedIsOf(w: Cluster, s: State, i: NodeId, me: Server, messages: set<Message>, h: History)
    requires IsOf(w, s) && i in s.servers
    ensures IsOf(Changed(w, i, NodeOf(me), messages), State(s.servers[i := me], s.sent + messages, h))
  {
  }

  /** The protocol makes this step, and arrives where the text does. */
  ghost predicate Follows(peers: set<NodeId>, s: State, w': Cluster, step: Step, s': State) {
    NextStep(peers, s, s', step) && IsOf(w', s')
  }

  lemma RequestsAreIntended(me: Server, peers: set<NodeId>, i: NodeId, term: nat, pre: bool)
    ensures VoteRequests(NodeOf(me), peers, i, term, pre)
            == set j | j in peers && j != i :: VoteReq(i, j, term, |me.log|, LastTerm(me.log), pre)
  {
    LastOfStore(me.log);
  }

  lemma AskVotesFollows(peers: set<NodeId>, s: State, w: Cluster, w': Cluster, i: NodeId) returns (s': State)
    requires IsOf(w, s) && Does(peers, w, w', AskVotes(i))
    ensures Follows(peers, s, w', Timeout(i), s')
  {
    var me := s.servers[i];
    RequestsAreIntended(me, peers, i, me.term + 1, true);
    s' := s.(sent := s.sent + VoteRequests(w.nodes[i], peers, i, me.term + 1, true));
  }

  lemma StandFollows(peers: set<NodeId>, s: State, w: Cluster, w': Cluster, i: NodeId, preVoters: set<NodeId>) returns (s': State)
    requires IsOf(w, s) && Does(peers, w, w', Stand(i, preVoters))
    ensures Follows(peers, s, w', StartElection(i, preVoters), s')
  {
    var me := OnElection(s.servers[i], i);
    var requests := VoteRequests(w.nodes[i], peers, i, me.term, false);
    ElectionIsIntended(s.servers[i], i);
    RequestsAreIntended(me, peers, i, me.term, false);
    s' := State(s.servers[i := me], s.sent + requests, WithCandidate(s.h, i, me.term, me.log));
    ChangedIsOf(w, s, i, me, requests, s'.h);
  }

  lemma AnswerVoteFollows(peers: set<NodeId>, s: State, w: Cluster, w': Cluster, m: Message) returns (s': State)
    requires IsOf(w, s) && Does(peers, w, w', AnswerVote(m))
    ensures Follows(peers, s, w', ReceiveVoteReq(m), s')
  {
    var (me, term, granted) := OnVoteRequest(s.servers[m.dst], m.src, m.term, m.lastIndex, m.lastTerm, m.pre);
    var reply := VoteResp(m.dst, m.src, m.term, m.pre, term, granted);
    VoteIsIntended(s.servers[m.dst], m.src, m.term, m.lastIndex, m.lastTerm, m.pre);
    s' := State(s.servers[m.dst := me], s.sent + {reply}, if granted && !m.pre then WithVote(s.h, m.dst, m.term, m.src) else s.h);
    ChangedIsOf(w, s, m.dst, me, {reply}, s'.h);
  }

  /** A region that sends nothing and leaves no history. */
  lemma QuietFollows(w: Cluster, w': Cluster, s: State, i: NodeId, me: Server) returns (s': State)
    requires IsOf(w, s) && i in s.servers && w' == Changed(w, i, NodeOf(me), {})
    ensures s' == s.(servers := s.servers[i := me]) && IsOf(w', s')
  {
    s' := s.(servers := s.servers[i := me]);
    ChangedIsOf(w, s, i, me, {}, s.h);
    assert s.sent + {} == s.sent;
  }

  lemma HearTermFollows(peers: set<NodeId>, s: State, w: Cluster, w': Cluster, m: Message, known: nat) returns (s': State)
    requires IsOf(w, s) && Does(peers, w, w', HearTerm(m, known)) && Undisturbed(peers, w.nodes[m.dst], HearTerm(m, known))
    ensures Follows(peers, s, w', ReceiveVoteResp(m), s')
  {
    VoteReplyIsIntendedIff(s.servers[m.dst], known, m.term);
    s' := QuietFollows(w, w', s, m.dst, AdoptTerm(s.servers[m.dst], m.term));
  }

  lemma WinFollows(peers: set<NodeId>, s: State, w: Cluster, w': Cluster, i: NodeId, voters: set<NodeId>, term: nat) returns (s': State)
    requires IsOf(w, s) && Does(peers, w, w', Win(i, voters, term)) && w.nodes[i].role == Candidate && w.nodes[i].term == term
    ensures Follows(peers, s, w', BecomeLeader(i, voters), s')
  {
    TakeOfficeIsIntendedIff(s.servers[i], i, peers, term);
    s' := ElectedFollows(peers, s, w, w', i, voters);
  }

  lemma ElectedFollows(peers: set<NodeId>, s: State, w: Cluster, w': Cluster, i: NodeId, voters: set<NodeId>) returns (s': State)
    requires IsOf(w, s) && i in s.servers && s.servers[i].role == Candidate && IsMajority(peers, i, voters)
    requires forall p | p in voters :: VoteResp(p, i, s.servers[i].term, false, s.servers[i].term, true) in s.sent
    requires w' == Changed(w, i, NodeOf(OnElected(s.servers[i], i, peers)), {})
    ensures Follows(peers, s, w', BecomeLeader(i, voters), s')
  {
    var me := s.servers[i];
    s' := State(s.servers[i := OnElected(me, i, peers)], s.sent + {}, WithLeader(s.h, i, me.term, me.log));
    ChangedIsOf(w, s, i, OnElected(me, i, peers), {}, s'.h);
    assert s.sent + {} == s.sent;
  }

  lemma AppendFollows(peers: set<NodeId>, s: State, w: Cluster, w': Cluster, i: NodeId, kind: LogType, data: seq<bv8>) returns (s': State)
    requires IsOf(w, s) && i in s.servers && s.servers[i].role == Leader
    requires w' == Changed(w, i, NodeOf(OnLeaderAppend(s.servers[i], i, peers, kind, data)), {})
    ensures Follows(peers, s, w', LeaderAppend(i, kind, data), s')
  {
    var me := OnLeaderAppend(s.servers[i], i, peers, kind, data);
    s' := State(s.servers[i := me], s.sent + {}, WithAck(WithLeaderLog(s.h, me.term, me.log), i, me.term, |me.log|));
    ChangedIsOf(w, s, i, me, {}, s'.h);
    assert s.sent + {} == s.sent;
  }

  lemma NoOpFollows(peers: set<NodeId>, s: State, w: Cluster, w': Cluster, i: NodeId, lastIndex: nat) returns (s': State)
    requires IsOf(w, s) && Does(peers, w, w', AppendNoOp(i, lastIndex)) && Undisturbed(peers, w.nodes[i], AppendNoOp(i, lastIndex))
    ensures Follows(peers, s, w', LeaderAppend(i, LogNoOp, []), s')
  {
    LastOfStore(s.servers[i].log);
    NoOpIsIntendedIff(s.servers[i], i, peers, lastIndex);
    s' := AppendFollows(peers, s, w, w', i, LogNoOp, []);
  }

  lemma ProposeFollows(peers: set<NodeId>, s: State, w: Cluster, w': Cluster, i: NodeId, data: seq<bv8>) returns (s': State)
    requires IsOf(w, s) && Does(peers, w, w', Propose(i, data)) && Undisturbed(peers, w.nodes[i], Propose(i, data))
    ensures Follows(peers, s, w', LeaderAppend(i, LogCommand, data), s')
  {
    ProposalIsIntendedIff(s.servers[i], i, peers, data);
    s' := AppendFollows(peers, s, w, w', i, LogCommand, data);
  }

  lemma ReplicateFollows(peers: set<NodeId>, s: State, w: Cluster, w': Cluster, i: NodeId, j: NodeId, term: nat, commit: nat)
    returns (count: nat, s': State)
    requires Shape(peers, s) && LeaderIndexes(s) && IsOf(w, s) && Does(peers, w, w', Replicate(i, j, term, commit))
    requires Undisturbed(peers, w.nodes[i], Replicate(i, j, term, commit))
    ensures Follows(peers, s, w', SendAppend(i, j, count, commit), s')
  {
    var m := Request(w.nodes[i], i, j, term, commit);
    RequestIsIntendedIff(peers, s, i, j, term, commit);
    var k: nat, c: nat :| Sends(peers, s, i, j, k, c, m);
    count := k;
    s' := SentFollows(peers, s, w, w', i, j, k, c, m);
  }

  lemma SentFollows(peers: set<NodeId>, s: State, w: Cluster, w': Cluster, i: NodeId, j: NodeId, count: nat, commit: nat, m: Message)
    returns (s': State)
    requires IsOf(w, s) && Sends(peers, s, i, j, count, commit, m) && w' == Changed(w, i, w.nodes[i], {m})
    ensures Follows(peers, s, w', SendAppend(i, j, count, m.commit), s')
  {
    s' := s.(sent := s.sent + {m});
    assert w.nodes[i := w.nodes[i]] == w.nodes;
  }

  lemma RequestIsConsecutive(peers: set<NodeId>, s: State, m: Message)
    requires Logs(s) && m.AppendReq? && RequestOk(peers, s, m)
    ensures Consecutive(m.prevIndex, m.entries)
  {
    var log := s.h.leaderLog[m.term];
    forall i | 0 <= i < |m.entries| ensures m.entries[i].index == m.prevIndex + 1 + i {
      assert EntryOk(s.h, log, m.prevIndex + i) && m.entries[i] == log[m.prevIndex + i];
    }
  }

  lemma ConflictIsStored(me: Server, m: Message)
    requires m.AppendReq? && Consecutive(m.prevIndex, m.entries) && NoStoredConflict(NodeOf(me), m.entries)
    ensures NoConflict(me.log, m.prevIndex, m.entries)
  {
    forall i | 0 <= i < |m.entries| && m.prevIndex + i < |me.log| ensures me.log[m.prevIndex + i].term == m.entries[i].term {
      assert m.entries[i].index in NodeOf(me).log;
    }
  }

  lemma AnswerAppendFollows(peers: set<NodeId>, s: State, w: Cluster, w': Cluster, m: Message) returns (s': State)
    requires Logs(s) && AppendMessages(peers, s) && Commits(peers, s) && IsOf(w, s)
    requires Does(peers, w, w', AnswerAppend(m)) && Undisturbed(peers, w.nodes[m.dst], AnswerAppend(m))
    ensures Follows(peers, s, w', ReceiveAppendReq(m), s')
  {
    var me := s.servers[m.dst];
    assert RequestOk(peers, s, m) && CommitsAt(peers, s, me);
    RequestIsConsecutive(peers, s, m);
    AppendIsUndisturbed(me, peers, m);
    s' := AnsweredFollows(peers, s, w, w', m);
  }

  lemma AppendIsUndisturbed(me: Server, peers: set<NodeId>, m: Message)
    requires m.AppendReq? && Consecutive(m.prevIndex, m.entries) && me.applied == me.commit <= |me.log|
    requires Undisturbed(peers, NodeOf(me), AnswerAppend(m))
    ensures SameOutcome(me, m.term, m.prevIndex, m.prevTerm, m.entries, m.commit)
  {
    LastOfStore(me.log);
    PrevIsIntended(me.log, m.prevIndex, m.prevTerm);
    AppendIsIntendedIff(me, m.term, m.prevIndex, m.prevTerm, m.entries, m.commit);
    if NoStoredConflict(NodeOf(me), m.entries) {
      ConflictIsStored(me, m);
    }
  }

  lemma AnsweredFollows(peers: set<NodeId>, s: State, w: Cluster, w': Cluster, m: Message) returns (s': State)
    requires IsOf(w, s) && Does(peers, w, w', AnswerAppend(m))
    requires SameOutcome(s.servers[m.dst], m.term, m.prevIndex, m.prevTerm, m.entries, m.commit)
    ensures Follows(peers, s, w', ReceiveAppendReq(m), s')
  {
    var (me, term, success) := OnAppendRequest(s.servers[m.dst], m.term, m.prevIndex, m.prevTerm, m.entries, m.commit);
    var reply := AppendResp(m.dst, m.src, m.term, m.prevIndex, |m.entries|, term, success);
    s' := State(s.servers[m.dst := me], s.sent + {reply},
                if success then WithAck(s.h, m.dst, m.term, m.prevIndex + |m.entries|) else s.h);
    ChangedIsOf(w, s, m.dst, me, {reply}, s'.h);
  }

  lemma IdleMovesNothing(me: Server, peers: set<NodeId>, m: Message)
    requires m.AppendResp? && ReplyIsIdle(NodeOf(me), peers, m)
    ensures ReplyMovesNothing(me, m.dst, peers, m.src, m.prevIndex, m.count, m.success)
  {
    CommittableIff(me, m.dst, peers);
  }

  lemma HearReplyFollows(peers: set<NodeId>, s: State, w: Cluster, w': Cluster, m: Message) returns (s': State)
    requires Commits(peers, s) && IsOf(w, s)
    requires Does(peers, w, w', HearReply(m)) && Undisturbed(peers, w.nodes[m.dst], HearReply(m))
    ensures Follows(peers, s, w', ReceiveAppendResp(m), s')
  {
    var me := s.servers[m.dst];
    assert CommitsAt(peers, s, me);
    if ReplyIsIdle(w.nodes[m.dst], peers, m) {
      IdleMovesNothing(me, peers, m);
    }
    ReplyIsIntendedIff(me, m.dst, peers, m.src, m.asked, m.prevIndex, m.count, m.term, m.success);
    s' := QuietFollows(w, w', s, m.dst, OnAppendReply(me, m.dst, peers, m.src, m.asked, m.prevIndex, m.count, m.term, m.success));
  }

  /** An undisturbed region is a step of the protocol, or finds its node in office already and does nothing. */
  lemma RegionFollows(peers: set<NodeId>, s: State, w: Cluster, w': Cluster, r: Region) returns (s': State)
    requires Inv(peers, s) && IsOf(w, s) && Does(peers, w, w', r) && Undisturbed(peers, w.nodes[NodeAt(r)], r)
    ensures IsOf(w', s') && (s' == s || Next(peers, s, s'))
  {
    if r.Win? {
      s' := WonFollows(peers, s, w, w', r.i, r.voters, r.term);
    } else if OnLogs(r) {
      s' := LogRegionFollows(peers, s, w, w', r);
    } else {
      s' := VoteRegionFollows(peers, s, w, w', r);
    }
  }

  predicate OnLogs(r: Region) { r.AppendNoOp? || r.Propose? || r.Replicate? || r.AnswerAppend? || r.HearReply? }

  /** The regions that replicate the log. */
  lemma LogRegionFollows(peers: set<NodeId>, s: State, w: Cluster, w': Cluster, r: Region) returns (s': State)
    requires OnLogs(r)
    requires Inv(peers, s) && IsOf(w, s) && Does(peers, w, w', r) && Undisturbed(peers, w.nodes[NodeAt(r)], r)
    ensures IsOf(w', s') && Next(peers, s, s')
  {
    var step: Step;
    match r {
      case AppendNoOp(i, lastIndex) =>
        s' := NoOpFollows(peers, s, w, w', i, lastIndex);
        step := LeaderAppend(i, LogNoOp, []);
      case Propose(i, data) =>
        s' := ProposeFollows(peers, s, w, w', i, data);
        step := LeaderAppend(i, LogCommand, data);
      case Replicate(i, j, term, commit) =>
        var count;
        count, s' := ReplicateFollows(peers, s, w, w', i, j, term, commit);
        step := SendAppend(i, j, count, commit);
      case AnswerAppend(m) =>
        s' := AnswerAppendFollows(peers, s, w, w', m);
        step := ReceiveAppendReq(m);
      case HearReply(m) =>
        s' := HearReplyFollows(peers, s, w, w', m);
        step := ReceiveAppendResp(m);
    }
    assert NextStep(peers, s, s', step);
  }

  /** The regions of votes, and restarts. */
  lemma VoteRegionFollows(peers: set<NodeId>, s: State, w: Cluster, w': Cluster, r: Region) returns (s': State)
    requires !r.Win? && !OnLogs(r)
    requires IsOf(w, s) && Does(peers, w, w', r) && Undisturbed(peers, w.nodes[NodeAt(r)], r)
    ensures IsOf(w', s') && Next(peers, s, s')
  {
    var step: Step;
    match r {
      case AskVotes(i) =>
        s' := AskVotesFollows(peers, s, w, w', i);
        step := Timeout(i);
      case Stand(i, preVoters) =>
        s' := StandFollows(peers, s, w, w', i, preVoters);
        step := StartElection(i, preVoters);
      case AnswerVote(m) =>
        s' := AnswerVoteFollows(peers, s, w, w', m);
        step := ReceiveVoteReq(m);
      case HearTerm(m, known) =>
        s' := HearTermFollows(peers, s, w, w', m, known);
        step := ReceiveVoteResp(m);
      case GiveUp(i) =>
        s' := GiveUpFollows(peers, s, w, w', i);
        step := LoseElection(i);
      case Reboot(i) =>
        s' := RebootFollows(peers, s, w, w', i);
        step := Restart(i);
    }
    assert NextStep(peers, s, s', step);
  }

  lemma WonFollows(peers: set<NodeId>, s: State, w: Cluster, w': Cluster, i: NodeId, voters: set<NodeId>, term: nat) returns (s': State)
    requires IsOf(w, s) && Does(peers, w, w', Win(i, voters, term)) && Undisturbed(peers, w.nodes[i], Win(i, voters, term))
    ensures IsOf(w', s') && (s' == s || Next(peers, s, s'))
  {
    if w.nodes[i].role == Leader {
      s' := QuietFollows(w, w', s, i, s.servers[i]);
      assert s.servers[i := s.servers[i]] == s.servers;
    } else {
      s' := WinFollows(peers, s, w, w', i, voters, term);
      assert NextStep(peers, s, s', BecomeLeader(i, voters));
    }
  }

  lemma GiveUpFollows(peers: set<NodeId>, s: State, w: Cluster, w': Cluster, i: NodeId) returns (s': State)
    requires IsOf(w, s) && Does(peers, w, w', GiveUp(i))
    ensures Follows(peers, s, w', LoseElection(i), s')
  {
    ElectionIsIntended(s.servers[i], i);
    s' := QuietFollows(w, w', s, i, OnLostElection(s.servers[i]));
  }

  lemma RebootFollows(peers: set<NodeId>, s: State, w: Cluster, w': Cluster, i: NodeId) returns (s': State)
    requires IsOf(w, s) && Does(peers, w, w', Reboot(i))
    ensures Follows(peers, s, w', Restart(i), s')
  {
    s' := QuietFollows(w, w', s, i, OnRestart(s.servers[i]));
  }

  // ---- whole runs ----

  ghost predicate Starts(peers: set<NodeId>, w: Cluster) {
    NOBODY !in peers && peers != {} && w == Cluster(map i | i in peers :: NewNode, {})
  }

  ghost predicate Goes(peers: set<NodeId>, w: Cluster, w': Cluster, r: Region) {
    Does(peers, w, w', r) && Undisturbed(peers, w.nodes[NodeAt(r)], r)
  }

  /** A run of the text in which no region is disturbed. */
  ghost predicate TextRun(peers: set<NodeId>, ws: seq<Cluster>, rs: seq<Region>) {
    && |ws| == |rs| + 1 && Starts(peers, ws[0])
    && forall k {:trigger Goes(peers, ws[k], ws[k + 1], rs[k])} | 0 <= k < |rs| :: Goes(peers, ws[k], ws[k + 1], rs[k])
  }

  /** The moment of the protocol's run at which each cluster of the text's run is reached. */
  ghost predicate Tracks(ws: seq<Cluster>, run: seq<State>, at: seq<nat>) {
    && |at| == |ws|
    && (forall k | 0 <= k < |ws| :: at[k] < |run| && IsOf(ws[k], run[at[k]]))
    && (forall a, b | 0 <= a <= b < |at| :: at[a] <= at[b])
  }

  lemma StartsIsInit(peers: set<NodeId>, w: Cluster) returns (s: State)
    requires Starts(peers, w)
    ensures Init(peers, s) && IsOf(w, s)
  {
    var log: Log := [];
    LastOfStore(log);
    assert StoreOf(log) == map[];
    s := State(map i | i in peers :: NewServer, {}, History(map[], map[], map[], map[], {}));
  }

  lemma RunGoesOn(peers: set<NodeId>, run: seq<State>, s': State)
    requires Run(peers, run) && Next(peers, run[|run| - 1], s')
    ensures Run(peers, run + [s'])
  {
    var longer := run + [s'];
    forall k | 0 <= k < |longer| - 1 ensures Next(peers, longer[k], longer[k + 1]) {
      if k < |run| - 1 {
        assert longer[k] == run[k] && longer[k + 1] == run[k + 1];
      }
    }
  }

  /** Undisturbed, the text runs as the protocol does. */
  lemma {:induction false} TextRunIsRun(peers: set<NodeId>, ws: seq<Cluster>, rs: seq<Region>) returns (run: seq<State>, at: seq<nat>)
    requires TextRun(peers, ws, rs)
    ensures Run(peers, run) && Tracks(ws, run, at) && at[|ws| - 1] == |run| - 1
    decreases |rs|
  {
    if rs == [] {
      var s := StartsIsInit(peers, ws[0]);
      run, at := [s], [0];
    } else {
      var k := |rs| - 1;
      assert Goes(peers, ws[k], ws[k + 1], rs[k]);
      ShorterRun(peers, ws, rs);
      run, at := TextRunIsRun(peers, ws[..|ws| - 1], rs[..k]);
      run, at := TextGoesOn(peers, ws, rs[k], run, at);
    }
  }

  lemma ShorterRun(peers: set<NodeId>, ws: seq<Cluster>, rs: seq<Region>)
    requires TextRun(peers, ws, rs) && rs != []
    ensures TextRun(peers, ws[..|ws| - 1], rs[..|rs| - 1])
  {
    var front, regions := ws[..|ws| - 1], rs[..|rs| - 1];
    forall k | 0 <= k < |regions| ensures Goes(peers, front[k], front[k + 1], regions[k]) {
      assert Goes(peers, ws[k], ws[k + 1], rs[k]);
    }
  }

  lemma TextGoesOn(peers: set<NodeId>, ws: seq<Cluster>, r: Region, run: seq<State>, at: seq<nat>) returns (run': seq<State>, at': seq<nat>)
    requires |ws| >= 2 && Goes(peers, ws[|ws| - 2], ws[|ws| - 1], r)
    requires Run(peers, run) && Tracks(ws[..|ws| - 1], run, at) && at[|ws| - 2] == |run| - 1
    ensures Run(peers, run') && Tracks(ws, run', at') && at'[|ws| - 1] == |run'| - 1
  {
    assert ws[..|ws| - 1][|ws| - 2] == ws[|ws| - 2];
    run' := OneMore(peers, run, ws[|ws| - 2], ws[|ws| - 1], r);
    at' := at + [|run'| - 1];
    TracksOn(ws, run, run', at, at');
  }

  /** One more undisturbed region at the end of a run. */
  lemma OneMore(peers: set<NodeId>, run: seq<State>, w: Cluster, w': Cluster, r: Region) returns (run': seq<State>)
    requires Run(peers, run) && IsOf(w, run[|run| - 1]) && Goes(peers, w, w', r)
    ensures Run(peers, run') && run <= run' && IsOf(w', run'[|run'| - 1])
  {
    var last := |run| - 1;
    RunInv(peers, run, last);
    var s' := RegionFollows(peers, run[last], w, w', r);
    if s' == run[last] {
      run' := run;
    } else {
      RunGoesOn(peers, run, s');
      run' := run + [s'];
    }
  }

  lemma TracksOn(ws: seq<Cluster>, run: seq<State>, run': seq<State>, at: seq<nat>, at': seq<nat>)
    requires ws != [] && Tracks(ws[..|ws| - 1], run, at) && run <= run' && |at'| == |ws| && at' == at + [|run'| - 1]
    requires run' != [] && IsOf(ws[|ws| - 1], run'[|run'| - 1])
    ensures Tracks(ws, run', at')
  {
    forall k | 0 <= k < |ws| ensures at'[k] < |run'| && IsOf(ws[k], run'[at'[k]]) {
      if k < |ws| - 1 {
        assert ws[..|ws| - 1][k] == ws[k] && run'[at[k]] == run[at[k]];
      }
    }
  }

  // ---- the safety of undisturbed runs of the text ----

  /** Whatever two nodes have handed to Apply, they handed out the same entry at every index both have reached. */
  lemma TextStateMachineSafety(peers: set<NodeId>, ws: seq<Cluster>, rs: seq<Region>, a: nat, b: nat, i: NodeId, j: NodeId, x: nat)
    requires TextRun(peers, ws, rs) && a < |ws| && b < |ws| && i in ws[a].nodes && j in ws[b].nodes
    requires x < |ws[a].nodes[i].handed| && x < |ws[b].nodes[j].handed|
    ensures ws[a].nodes[i].handed[x] == ws[b].nodes[j].handed[x]
    ensures ws[a].nodes[i].handed[x].index == x + 1
  {
    var run, at := TextRunIsRun(peers, ws, rs);
    assert IsOf(ws[a], run[at[a]]) && IsOf(ws[b], run[at[b]]);
    StateMachineSafety(peers, run, at[a], at[b], i, j, x);
  }

  /** In one term at most one node is ever leader. */
  lemma TextElectionSafety(peers: set<NodeId>, ws: seq<Cluster>, rs: seq<Region>, a: nat, b: nat, i: NodeId, j: NodeId)
    requires TextRun(peers, ws, rs) && a < |ws| && b < |ws| && i in ws[a].nodes && j in ws[b].nodes
    requires ws[a].nodes[i].role == Leader && ws[b].nodes[j].role == Leader && ws[a].nodes[i].term == ws[b].nodes[j].term
    ensures i == j
  {
    var run, at := TextRunIsRun(peers, ws, rs);
    assert IsOf(ws[a], run[at[a]]) && IsOf(ws[b], run[at[b]]);
    RunInv(peers, run, at[a]);
    RunInv(peers, run, at[b]);
    ElectionSafety(peers, run, at[a], at[b], i, j);
  }

  /** Two stores that hold an entry of one index and term hold the same entries, without a gap, up to it. */
  lemma TextLogMatching(peers: set<NodeId>, ws: seq<Cluster>, rs: seq<Region>, a: nat, b: nat, i: NodeId, j: NodeId, k: nat)
    requires TextRun(peers, ws, rs) && a < |ws| && b < |ws| && i in ws[a].nodes && j in ws[b].nodes
    requires k in ws[a].nodes[i].log && k in ws[b].nodes[j].log && ws[a].nodes[i].log[k].term == ws[b].nodes[j].log[k].term
    ensures forall x | 1 <= x <= k :: x in ws[a].nodes[i].log && x in ws[b].nodes[j].log && ws[a].nodes[i].log[x] == ws[b].nodes[j].log[x]
  {
    var run, at := TextRunIsRun(peers, ws, rs);
    var s, t := run[at[a]], run[at[b]];
    assert IsOf(ws[a], s) && IsOf(ws[b], t);
    LogMatching(peers, run, at[a], at[b], i, j, k - 1);
    var mine, yours := s.servers[i].log, t.servers[j].log;
    forall x | 1 <= x <= k ensures x in StoreOf(mine) && x in StoreOf(yours) && StoreOf(mine)[x] == StoreOf(yours)[x] {
      assert mine[..k][x - 1] == yours[..k][x - 1];
    }
  }

  /** What was handed to Apply stays, and grows only at its end. */
  lemma TextHandedOnce(peers: set<NodeId>, ws: seq<Cluster>, rs: seq<Region>, a: nat, b: nat, n: NodeId)
    requires TextRun(peers, ws, rs) && a <= b < |ws| && n in ws[a].nodes
    ensures n in ws[b].nodes && ws[a].nodes[n].handed <= ws[b].nodes[n].handed
  {
    var run, at := TextRunIsRun(peers, ws, rs);
    assert IsOf(ws[a], run[at[a]]) && IsOf(ws[b], run[at[b]]);
    HandedOnce(peers, run, at[a], at[b], n);
  }
}
