/**
 The node as the program has it: the log is a store keyed by index (internal/raft/storage.go), and
 each function is exactly what the text of one locked region does to the node.  RaftNode.dfy holds
 the imperative code these functions specify; RaftIntended.dfy compares them with the protocol.
 */
module RaftStore {
  import opened RaftTypes

  type Store = map<nat, LogEntry>

  datatype NodeState = NodeState(
    role: Role,
    term: nat,
    votedFor: NodeId,
    log: Store,
    commit: nat,
    applied: nat,
    nextIndex: map<NodeId, nat>,
    matchIndex: map<NodeId, nat>,
    handed: seq<LogEntry>)

  // ---- reading the store ----

  lemma {:induction false} HasMax(keys: set<nat>)
    requires keys != {}
    ensures exists k :: k in keys && forall j | j in keys :: j <= k
  {
    var x :| x in keys;
    if keys == {x} {
      assert x in keys && forall j | j in keys :: j <= x;
    } else {
      HasMax(keys - {x});
      var k :| k in keys - {x} && forall j | j in keys - {x} :: j <= k;
      var top := Max(x, k);
      forall j | j in keys ensures j <= top {
        assert j == x || j in keys - {x};
      }
      assert top in keys;
    }
  }

  /** LastIndex: the largest stored index, 0 for an empty store. */
  function LastIndex(log: Store): (last: nat)
    ensures forall k | k in log :: k <= last
    ensures log != map[] ==> last in log
  {
    if log.Keys == {} then 0
    else
      HasMax(log.Keys);
      var k :| k in log.Keys && forall j | j in log.Keys :: j <= k;
      k
  }

  /** getLastLogTerm: 0 when there is no last entry. */
  function LastTermIn(log: Store): nat {
    var last := LastIndex(log);
    if last != 0 && last in log then log[last].term else 0
  }

  // ---- voting ----

  predicate LogOkFor(n: NodeState, lastIndex: nat, lastTerm: nat) {
    lastTerm > LastTermIn(n.log) || (lastTerm == LastTermIn(n.log) && lastIndex >= LastIndex(n.log))
  }

  ghost predicate IsLast(log: Store, k: nat) {
    k in log && forall j | j in log :: j <= k
  }

  /** By term first and by index then, these are not behind the stored entry with the greatest index. */
  ghost predicate NotBehindLast(log: Store, lastIndex: nat, lastTerm: nat) {
    forall k {:trigger IsLast(log, k)} | IsLast(log, k) ::
      k == 0 || lastTerm > log[k].term || (lastTerm == log[k].term && lastIndex >= k)
  }

  lemma LastIsNotBehind(log: Store, lastIndex: nat, lastTerm: nat)
    ensures NotBehindLast(log, lastIndex, lastTerm) <==>
            lastTerm > LastTermIn(log) || (lastTerm == LastTermIn(log) && lastIndex >= LastIndex(log))
  {
    var last := LastIndex(log);
    if log != map[] {
      assert IsLast(log, last);
      forall k | IsLast(log, k) ensures k == last {
      }
    } else {
      assert last == 0;
    }
  }

  function Adopted(n: NodeState, term: nat): NodeState {
    if term > n.term then n.(term := term, votedFor := NOBODY, role := Follower) else n
  }

  /** HandleRequestVote. */
  function HandleVote(n: NodeState, candidate: NodeId, term: nat, lastIndex: nat, lastTerm: nat, pre: bool): (NodeState, nat, bool) {
    if term < n.term then
      (n, n.term, false)
    else if pre then
      (n, n.term, LogOkFor(n, lastIndex, lastTerm))
    else
      var n1 := Adopted(n, term);
      if n1.votedFor != NOBODY && n1.votedFor != candidate then
        (n1, n1.term, false)
      else if !LogOkFor(n1, lastIndex, lastTerm) then
        (n1, n1.term, false)
      else
        (n1.(votedFor := candidate, role := Follower), n1.term, true)
  }

  /** The locked part of startElection. */
  function Candidacy(n: NodeState, self: NodeId): NodeState {
    n.(role := Candidate, term := n.term + 1, votedFor := self)
  }

  /** An election without a majority ends. */
  function ElectionLost(n: NodeState): NodeState {
    if n.role == Candidate then n.(role := Follower) else n
  }

  /** A vote or pre-vote reply with a term above the one known when the request was sent. */
  function VoteReply(n: NodeState, known: nat, replyTerm: nat): NodeState {
    if replyTerm > known then n.(term := replyTerm, votedFor := NOBODY, role := Follower) else n
  }

  /** The first locked region of becomeLeader: it only asks whether the node leads already. */
  function TakeOffice(n: NodeState, self: NodeId, peers: set<NodeId>): NodeState {
    if n.role == Leader then n
    else
      n.(role := Leader,
         nextIndex := SetAll(n.nextIndex, peers - {self}, LastIndex(n.log) + 1),
         matchIndex := SetAll(n.matchIndex, peers - {self}, 0)[self := LastIndex(n.log)])
  }

  function StepDownTo(n: NodeState, term: nat): NodeState {
    (if term > n.term then n.(term := term, votedFor := NOBODY) else n).(role := Follower)
  }

  // ---- applying and appending ----

  /** collectApplyOps. */
  function CollectStore(n: NodeState): NodeState
    decreases n.commit - n.applied
  {
    if n.applied < n.commit && n.applied + 1 in n.log then
      CollectStore(n.(applied := n.applied + 1, handed := n.handed + [n.log[n.applied + 1]]))
    else
      n
  }

  function CommitAlone(n: NodeState, peers: set<NodeId>, index: nat): NodeState {
    if |peers| == 1 then CollectStore(n.(commit := index)) else n
  }

  /** The second locked region of becomeLeader, with the last index read in the first. */
  function StoreNoOp(n: NodeState, self: NodeId, peers: set<NodeId>, lastIndex: nat): NodeState {
    var entry := LogEntry(lastIndex + 1, n.term, LogNoOp, []);
    CommitAlone(n.(log := n.log[entry.index := entry], matchIndex := n.matchIndex[self := entry.index]), peers, entry.index)
  }

  /** The locked region of handleProposal. */
  function StoreProposal(n: NodeState, self: NodeId, peers: set<NodeId>, data: seq<bv8>): NodeState {
    var entry := LogEntry(LastIndex(n.log) + 1, n.term, LogCommand, data);
    CommitAlone(
      n.(log := n.log[entry.index := entry],
         matchIndex := n.matchIndex[self := entry.index],
         nextIndex := n.nextIndex[self := entry.index + 1]),
      peers, entry.index)
  }

  // ---- HandleAppendEntries ----

  /** DeleteRange(from, to). */
  function Without(log: Store, from: nat, to: nat): Store {
    map k | k in log && !(from <= k <= to) :: log[k]
  }

  /** One turn of the append loop: a conflicting entry is cut, but only an absent one is stored. */
  function StoreEntry(log: Store, entry: LogEntry): Store {
    if entry.index in log then
      if log[entry.index].term != entry.term then Without(log, entry.index, LastIndex(log)) else log
    else
      log[entry.index := entry]
  }

  function StoreEntries(log: Store, entries: seq<LogEntry>): Store {
    if entries == [] then log
    else StoreEntry(StoreEntries(log, entries[..|entries| - 1]), entries[|entries| - 1])
  }

  predicate PrevFound(log: Store, prevIndex: nat, prevTerm: nat) {
    prevIndex == 0 || (prevIndex <= LastIndex(log) && prevIndex in log && log[prevIndex].term == prevTerm)
  }

  function CommitUpTo(n: NodeState, commit: nat): NodeState {
    if commit > n.commit then CollectStore(n.(commit := Min(commit, LastIndex(n.log)))) else n
  }

  /** HandleAppendEntries: the commit bound is the local last index. */
  function HandleAppend(n: NodeState, term: nat, prevIndex: nat, prevTerm: nat, entries: seq<LogEntry>, commit: nat): (NodeState, nat, bool) {
    if term < n.term then
      (n, n.term, false)
    else
      var n1 := Adopted(n, term).(role := Follower);
      if !PrevFound(n1.log, prevIndex, prevTerm) then
        (n1, term, false)
      else
        var n2 := n1.(log := StoreEntries(n1.log, entries));
        (CommitUpTo(n2, commit), term, true)
  }

  /** The first index of the run of entries of one term that ends at `last`. */
  ghost predicate StartsRun(log: Store, first: nat, last: nat)
    requires last in log
  {
    && first <= last
    && (forall k | first <= k <= last :: k in log && log[k].term == log[last].term)
    && (first == 0 || first - 1 !in log || log[first - 1].term != log[last].term)
  }

  /** Where a refused request should go back to: behind a short log, to the start of a run of a wrong term, or to 1. */
  ghost predicate ReportsConflict(n: NodeState, term: nat, prevIndex: nat, prevTerm: nat, conflict: nat) {
    if term < n.term || PrevFound(n.log, prevIndex, prevTerm) then conflict == 0
    else if LastIndex(n.log) < prevIndex then conflict == LastIndex(n.log) + 1
    else if prevIndex !in n.log then conflict == 1
    else StartsRun(n.log, conflict, prevIndex)
  }

  // ---- replication ----

  function StoredMatch(n: NodeState, p: NodeId): nat {
    if p in n.matchIndex then n.matchIndex[p] else 0
  }

  function StoredNext(n: NodeState, p: NodeId): nat {
    if p in n.nextIndex then n.nextIndex[p] else 0
  }

  function HoldersIn(n: NodeState, self: NodeId, peers: set<NodeId>, index: nat): set<NodeId> {
    set p | p in peers && p != self && StoredMatch(n, p) >= index
  }

  predicate Committable(n: NodeState, self: NodeId, peers: set<NodeId>) {
    && n.commit < LastIndex(n.log)
    && n.commit + 1 in n.log
    && n.log[n.commit + 1].term == n.term
    && (1 + |HoldersIn(n, self, peers, n.commit + 1)|) * 2 > |peers|
  }

  /** The loop of advanceCommitIndex. */
  function AdvanceStore(n: NodeState, self: NodeId, peers: set<NodeId>): NodeState
    decreases LastIndex(n.log) - n.commit
  {
    if Committable(n, self, peers) then AdvanceStore(n.(commit := n.commit + 1), self, peers) else n
  }

  /** The second locked region of replicateToPeer: it never compares `asked` with the current term. */
  function AppendReply(n: NodeState, self: NodeId, peers: set<NodeId>, peer: NodeId,
                       asked: nat, prevIndex: nat, count: nat, replyTerm: nat, success: bool): NodeState
  {
    if replyTerm > asked then
      StepDownTo(n, replyTerm)
    else if n.role != Leader || replyTerm != asked then
      n
    else if success then
      var n1 :=
        if count > 0 then
          n.(nextIndex := n.nextIndex[peer := prevIndex + count + 1], matchIndex := n.matchIndex[peer := prevIndex + count])
        else
          n.(nextIndex := n.nextIndex[peer := prevIndex + 1]);
      CollectStore(AdvanceStore(n1, self, peers))
    else if StoredNext(n, peer) > 1 then
      n.(nextIndex := n.nextIndex[peer := StoredNext(n, peer) - 1])
    else
      n
  }

  const BATCH_SIZE: nat := 1024 * 1024

  function EntrySize(e: LogEntry): nat { 17 + |e.data| }

  /** LogEntries(from, to) with `size` bytes taken already: stops at a gap or once the batch is full. */
  function Batch(log: Store, from: nat, to: nat, size: nat): seq<LogEntry>
    decreases to - from
  {
    if from >= to || from !in log then []
    else
      [log[from]] + if size + EntrySize(log[from]) > BATCH_SIZE then [] else Batch(log, from + 1, to, size + EntrySize(log[from]))
  }

  lemma BatchStep(store: Store, from: nat, to: nat, size: nat)
    ensures from >= to ==> Batch(store, from, to, size) == []
    ensures from < to && from in store ==>
              var size' := size + EntrySize(store[from]);
              Batch(store, from, to, size) == [store[from]] + if size' > BATCH_SIZE then [] else Batch(store, from + 1, to, size')
  {
  }

  /** The first locked region of replicateToPeer, with the term and commit index read before it. */
  function Request(n: NodeState, self: NodeId, peer: NodeId, term: nat, commit: nat): Message
    requires StoredNext(n, peer) >= 1
  {
    var next := StoredNext(n, peer);
    var prevTerm := if next - 1 > 0 && next - 1 in n.log then n.log[next - 1].term else 0;
    AppendReq(self, peer, term, next - 1, prevTerm, Batch(n.log, next, LastIndex(n.log) + 1, 0), commit)
  }
}
