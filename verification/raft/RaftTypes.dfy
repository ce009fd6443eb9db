/**
 Data of the consensus module (internal/raft): log entries, a node's protocol state, the RPC
 messages, and what each lock-held region of the node does to its state.

 A log is a sequence here: position k holds the entry with index k + 1.  RaftNode.dfy keeps the
 log as the index-keyed store the program really has, and relates the two.
 */
module RaftTypes {

  // The program only ever compares node ids, so they are numbers here.  NOBODY is its empty string.
  type NodeId = nat

  const NOBODY: NodeId := 0

  datatype Role = Follower | PreCandidate | Candidate | Leader

  datatype LogType = LogCommand | LogNoOp | LogAddPeer | LogRemovePeer | LogConfiguration

  datatype LogEntry = LogEntry(index: nat, term: nat, kind: LogType, data: seq<bv8>)

  type Log = seq<LogEntry>

  // `handed` is everything the node has handed to its Apply callback, oldest first.
  datatype Server = Server(
    role: Role,
    term: nat,
    votedFor: NodeId,
    log: Log,
    commit: nat,
    applied: nat,
    nextIndex: map<NodeId, nat>,
    matchIndex: map<NodeId, nat>,
    handed: seq<LogEntry>)

  // A reply repeats the part of its request that the caller still holds when the call returns.
  datatype Message =
    | VoteReq(src: NodeId, dst: NodeId, term: nat, lastIndex: nat, lastTerm: nat, pre: bool)
    | VoteResp(src: NodeId, dst: NodeId, asked: nat, pre: bool, term: nat, granted: bool)
    | AppendReq(src: NodeId, dst: NodeId, term: nat, prevIndex: nat, prevTerm: nat, entries: seq<LogEntry>, commit: nat)
    | AppendResp(src: NodeId, dst: NodeId, asked: nat, prevIndex: nat, count: nat, term: nat, success: bool)

  // ---- majorities ----

  ghost predicate Majority(q: set<NodeId>, peers: set<NodeId>) {
    q <= peers && |q| * 2 > |peers|
  }

  lemma MajoritiesMeet(a: set<NodeId>, b: set<NodeId>, peers: set<NodeId>) returns (common: NodeId)
    requires Majority(a, peers) && Majority(b, peers)
    ensures common in a && common in b
  {
    SubsetSize(a + b, peers);
    assert |a + b| + |a * b| == |a| + |b|;
    assert a * b != {};
    common :| common in a * b;
  }

  lemma {:induction false} SubsetSize(a: set<NodeId>, b: set<NodeId>)
    requires a <= b
    ensures |a| <= |b|
  {
    assert b == a + (b - a);
    assert |b| == |a| + |b - a|;
  }

  // ---- reading a log ----

  function TermAt(log: Log, index: nat): nat
    requires index <= |log|
  {
    if index == 0 then 0 else log[index - 1].term
  }

  function LastTerm(log: Log): nat {
    TermAt(log, |log|)
  }

  /** The candidate's log is at least as new as the voter's (section 5.4.1 of the Raft paper). */
  predicate UpToDate(lastTerm: nat, lastIndex: nat, log: Log) {
    lastTerm > LastTerm(log) || (lastTerm == LastTerm(log) && lastIndex >= |log|)
  }

  // ---- voting ----

  function AdoptTerm(s: Server, term: nat): Server {
    if term > s.term then s.(term := term, votedFor := NOBODY, role := Follower) else s
  }

  /** What HandleRequestVote does to the node, and the term and answer it replies with. */
  function OnVoteRequest(s: Server, candidate: NodeId, term: nat, lastIndex: nat, lastTerm: nat, pre: bool): (Server, nat, bool) {
    if term < s.term then
      (s, s.term, false)
    else if pre then
      (s, s.term, UpToDate(lastTerm, lastIndex, s.log))
    else
      var s1 := AdoptTerm(s, term);
      if s1.votedFor != NOBODY && s1.votedFor != candidate then
        (s1, s1.term, false)
      else if !UpToDate(lastTerm, lastIndex, s1.log) then
        (s1, s1.term, false)
      else
        (s1.(votedFor := candidate, role := Follower), s1.term, true)
  }

  /** Election start: the candidate moves to the next term and votes for itself. */
  function OnElection(s: Server, self: NodeId): Server {
    s.(role := Candidate, term := s.term + 1, votedFor := self)
  }

  function SetAll(m: map<NodeId, nat>, nodes: set<NodeId>, value: nat): map<NodeId, nat> {
    map p | p in m.Keys + nodes :: if p in nodes then value else m[p]
  }

  /** The first locked region of becomeLeader: role and replication indexes. */
  function OnElected(s: Server, self: NodeId, peers: set<NodeId>): Server {
    s.(role := Leader,
       nextIndex := SetAll(s.nextIndex, peers - {self}, |s.log| + 1),
       matchIndex := SetAll(s.matchIndex, peers - {self}, 0)[self := |s.log|])
  }

  /** stepDown: adopts a newer term only, and gives up any leadership. */
  function StepDown(s: Server, term: nat): Server {
    (if term > s.term then s.(term := term, votedFor := NOBODY) else s).(role := Follower)
  }

  // ---- applying ----

  function Min(a: nat, b: nat): nat { if a < b then a else b }

  function Max(a: nat, b: nat): nat { if a > b then a else b }

  /** collectApplyOps: hands the committed, not yet applied entries the log holds to Apply, in index order. */
  function Collect(s: Server): Server {
    var upTo := Min(s.commit, |s.log|);
    if s.applied < upTo then
      s.(handed := s.handed + s.log[s.applied..upTo], applied := upTo)
    else
      s
  }

  // ---- leader appends ----

  /**
   The second locked region of becomeLeader (a NoOp) and handleProposal (a command): the leader
   appends one entry of its own term.  A cluster of one commits it at once.
   */
  function OnLeaderAppend(s: Server, self: NodeId, peers: set<NodeId>, kind: LogType, data: seq<bv8>): Server {
    var entry := LogEntry(|s.log| + 1, s.term, kind, data);
    var next := if kind == LogNoOp then s.nextIndex else s.nextIndex[self := entry.index + 1];
    var s1 := s.(log := s.log + [entry], matchIndex := s.matchIndex[self := entry.index], nextIndex := next);
    if |peers| == 1 then Collect(s1.(commit := entry.index)) else s1
  }

  // ---- AppendEntries on the receiving node ----

  /** Stores entries after position prev; the first entry whose term differs cuts the log there. */
  function Merge(log: Log, prev: nat, entries: seq<LogEntry>): Log
    requires prev <= |log|
    decreases |entries|
  {
    if entries == [] then
      log
    else if prev < |log| && log[prev].term == entries[0].term then
      Merge(log, prev + 1, entries[1..])
    else
      Merge(log[..prev] + [entries[0]], prev + 1, entries[1..])
  }

  lemma {:induction false} MergeCovers(log: Log, prev: nat, entries: seq<LogEntry>)
    requires prev <= |log|
    ensures |Merge(log, prev, entries)| >= prev + |entries|
    decreases |entries|
  {
    if entries != [] {
      if prev < |log| && log[prev].term == entries[0].term {
        MergeCovers(log, prev + 1, entries[1..]);
      } else {
        MergeCovers(log[..prev] + [entries[0]], prev + 1, entries[1..]);
      }
    }
  }

  /** The request's previous entry is present with the stated term. */
  predicate PrevMatches(log: Log, prevIndex: nat, prevTerm: nat) {
    prevIndex == 0 || (prevIndex <= |log| && log[prevIndex - 1].term == prevTerm)
  }

  /**
   What HandleAppendEntries does.  Two points follow the intended reading rather than the text:
   the conflicting entry is stored once the log has been cut before it, and the commit bound is
   the last entry the request covers, never below the present commit index.
   */
  function OnAppendRequest(s: Server, term: nat, prevIndex: nat, prevTerm: nat, entries: seq<LogEntry>, commit: nat): (Server, nat, bool)
  {
    if term < s.term then
      (s, s.term, false)
    else
      var s1 := AdoptTerm(s, term).(role := Follower);
      if !PrevMatches(s1.log, prevIndex, prevTerm) then
        (s1, term, false)
      else
        var s2 := s1.(log := Merge(s1.log, prevIndex, entries),
                      commit := Max(s1.commit, Min(commit, prevIndex + |entries|)));
        (Collect(s2), term, true)
  }

  // ---- AppendEntries replies on the leader ----

  function MatchOf(s: Server, p: NodeId): nat {
    if p in s.matchIndex then s.matchIndex[p] else 0
  }

  function NextOf(s: Server, p: NodeId): nat {
    if p in s.nextIndex then s.nextIndex[p] else 0
  }

  function Holders(s: Server, self: NodeId, peers: set<NodeId>, index: nat): set<NodeId> {
    set p | p in peers && p != self && MatchOf(s, p) >= index
  }

  /** advanceCommitIndex: one index at a time, current-term entries only, counted majority. */
  function AdvanceCommit(s: Server, self: NodeId, peers: set<NodeId>): Server
    decreases |s.log| - s.commit
  {
    if s.commit < |s.log| && s.log[s.commit].term == s.term
       && (1 + |Holders(s, self, peers, s.commit + 1)|) * 2 > |peers| then
      AdvanceCommit(s.(commit := s.commit + 1), self, peers)
    else
      s
  }

  lemma {:induction false} AdvanceCommitBound(s: Server, self: NodeId, peers: set<NodeId>)
    requires s.commit <= |s.log|
    ensures s.commit <= AdvanceCommit(s, self, peers).commit <= |s.log|
    ensures AdvanceCommit(s, self, peers) == s.(commit := AdvanceCommit(s, self, peers).commit)
    decreases |s.log| - s.commit
  {
    if s.commit < |s.log| && s.log[s.commit].term == s.term
       && (1 + |Holders(s, self, peers, s.commit + 1)|) * 2 > |peers| {
      AdvanceCommitBound(s.(commit := s.commit + 1), self, peers);
    }
  }

  /**
   What replicateToPeer does with a reply to the request (asked, prevIndex, count) it sent to
   peer.  Intended reading: the reply counts only in the leadership term the request was sent in.
   */
  function OnAppendReply(s: Server, self: NodeId, peers: set<NodeId>, peer: NodeId,
                         asked: nat, prevIndex: nat, count: nat, term: nat, success: bool): Server
  {
    if term > asked then
      StepDown(s, term)
    else if s.role != Leader || term != asked || s.term != asked then
      s
    else if success then
      var s1 :=
        if count > 0 then
          s.(nextIndex := s.nextIndex[peer := prevIndex + count + 1], matchIndex := s.matchIndex[peer := prevIndex + count])
        else
          s.(nextIndex := s.nextIndex[peer := prevIndex + 1]);
      Collect(AdvanceCommit(s1, self, peers))
    else if NextOf(s, peer) > 1 then
      s.(nextIndex := s.nextIndex[peer := NextOf(s, peer) - 1])
    else
      s
  }

  /** A candidate without a majority gives up, keeping its term and vote. */
  function OnLostElection(s: Server): Server {
    if s.role == Candidate then s.(role := Follower) else s
  }

  /** A restart keeps what is on disk: term, vote, log, commit and applied index. */
  function OnRestart(s: Server): Server {
    s.(role := Follower, nextIndex := map[], matchIndex := map[])
  }
}
