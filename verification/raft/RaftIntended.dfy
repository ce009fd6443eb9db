/**
 Where the text of the node departs from the protocol of RaftProtocol.dfy.  For every locked
 region: the exact condition under which text and protocol do the same to a node whose store holds
 a log without gaps, and, where they can differ, a concrete node on which they do.  RaftText.dfy
 puts the regions together: runs whose regions meet these conditions are runs of the protocol.
 */
module RaftIntended {
  import opened RaftTypes
  import opened RaftProtocol
  import opened RaftStore

  function EntryAt(log: Log, index: nat): LogEntry
    requires 1 <= index <= |log|
  {
    log[index - 1]
  }

  function StoreOf(log: Log): Store {
    map k: nat | 1 <= k <= |log| :: EntryAt(log, k)
  }

  /** The program's state of a node whose stored log has no gap. */
  function NodeOf(s: Server): NodeState {
    NodeState(s.role, s.term, s.votedFor, StoreOf(s.log), s.commit, s.applied, s.nextIndex, s.matchIndex, s.handed)
  }

  lemma LastOfStore(log: Log)
    ensures LastIndex(StoreOf(log)) == |log|
    ensures LastTermIn(StoreOf(log)) == LastTerm(log)
  {
    var store := StoreOf(log);
    if log == [] {
      assert store == map[];
    } else {
      assert |log| in store;
    }
  }

  // ---- requests for votes: text and protocol agree ----

  lemma AdoptIsIntended(s: Server, term: nat)
    ensures Adopted(NodeOf(s), term) == NodeOf(AdoptTerm(s, term))
  {
  }

  lemma LogOkIsIntended(s: Server, lastIndex: nat, lastTerm: nat)
    ensures LogOkFor(NodeOf(s), lastIndex, lastTerm) == UpToDate(lastTerm, lastIndex, s.log)
  {
    LastOfStore(s.log);
  }

  /** HandleRequestVote is the protocol's, whatever the request. */
  lemma VoteIsIntended(s: Server, candidate: NodeId, term: nat, lastIndex: nat, lastTerm: nat, pre: bool)
    ensures var (n, t, g) := HandleVote(NodeOf(s), candidate, term, lastIndex, lastTerm, pre);
            var (s', t', g') := OnVoteRequest(s, candidate, term, lastIndex, lastTerm, pre);
            n == NodeOf(s') && t == t' && g == g'
  {
    LogOkIsIntended(s, lastIndex, lastTerm);
    LogOkIsIntended(AdoptTerm(s, term), lastIndex, lastTerm);
    AdoptIsIntended(s, term);
  }

  /** By term first and by index then, the candidate's last entry is not behind the last entry of the log. */
  predicate NotBehind(lastTerm: nat, lastIndex: nat, log: Log) {
    || log == []
    || lastTerm > log[|log| - 1].term
    || (lastTerm == log[|log| - 1].term && lastIndex >= |log|)
  }

  /** When a vote or pre-vote is granted, and what asking for one does to the node. */
  lemma VoteGrantedIff(s: Server, candidate: NodeId, term: nat, lastIndex: nat, lastTerm: nat, pre: bool)
    ensures var (n, replyTerm, granted) := HandleVote(NodeOf(s), candidate, term, lastIndex, lastTerm, pre);
            && (granted <==> term >= s.term && NotBehind(lastTerm, lastIndex, s.log)
                             && (pre || term > s.term || s.votedFor == NOBODY || s.votedFor == candidate))
            && (pre || term < s.term ==> n == NodeOf(s) && replyTerm == s.term)
            && (!pre && term >= s.term ==>
                  && n.term == replyTerm == term
                  && n.votedFor == (if granted then candidate else if term > s.term then NOBODY else s.votedFor)
                  && n.role == (if granted || term > s.term then Follower else s.role)
                  && n.(term := s.term, votedFor := s.votedFor, role := s.role) == NodeOf(s))
  {
    LastOfStore(s.log);
  }

  // ---- (a) replies to vote and pre-vote requests ----

  /** Standing for election and losing it are the protocol's. */
  lemma ElectionIsIntended(s: Server, self: NodeId)
    ensures Candidacy(NodeOf(s), self) == NodeOf(OnElection(s, self))
    ensures ElectionLost(NodeOf(s)) == NodeOf(OnLostElection(s))
  {
  }

  /**
   A reply's term is stored without looking at the present one.  That is what the protocol does
   exactly when the reply is no news, or newer than the node, or the node already is a follower of
   that term without a vote.
   */
  lemma VoteReplyIsIntendedIff(s: Server, known: nat, replyTerm: nat)
    ensures VoteReply(NodeOf(s), known, replyTerm) == NodeOf(AdoptTerm(s, replyTerm)) <==>
            if replyTerm <= known then
              replyTerm <= s.term
            else
              replyTerm > s.term || (replyTerm == s.term && s.votedFor == NOBODY && s.role == Follower)
  {
  }

  /** Some request for this term gets the node's vote for another candidate. */
  ghost predicate VotesForAnother(n: NodeState, first: NodeId, term: nat) {
    exists candidate, lastIndex, lastTerm ::
      candidate != first && candidate != NOBODY && HandleVote(n, candidate, term, lastIndex, lastTerm, false).2
  }

  /** After a vote or pre-vote reply a node can vote for a second candidate in the term it has already voted in exactly
      when the reply is newer than the term its request was sent in, but not newer than the node. */
  lemma VotesAgainIff(n: NodeState, known: nat, replyTerm: nat)
    requires n.votedFor != NOBODY
    ensures VotesForAnother(VoteReply(n, known, replyTerm), n.votedFor, n.term) <==> known < replyTerm <= n.term
  {
    if known < replyTerm <= n.term {
      var other := n.votedFor + 1;
      assert HandleVote(VoteReply(n, known, replyTerm), other, n.term, LastIndex(n.log), LastTermIn(n.log), false).2;
    }
  }

  /** A late reply lets a node vote for two candidates in term 5. */
  lemma LateReplyVotesTwice()
    ensures var n0 := NodeOf(NewServer.(term := 5));
            var (n1, _, first) := HandleVote(n0, 2, 5, 0, 0, false);
            var n2 := VoteReply(n1, 4, 5);
            var (n3, _, second) := HandleVote(n2, 3, 5, 0, 0, false);
            first && second && n1.term == n3.term == 5 && n1.votedFor == 2 && n3.votedFor == 3
  {
    LastOfStore([]);
  }

  // ---- (b) taking office ----

  /** The protocol's reading of becomeLeader: only a candidate of the election's own term takes office. */
  function TakesOffice(s: Server, self: NodeId, peers: set<NodeId>, newTerm: nat): Server {
    if s.role == Candidate && s.term == newTerm then OnElected(s, self, peers) else s
  }

  lemma TakeOfficeIsIntendedIff(s: Server, self: NodeId, peers: set<NodeId>, newTerm: nat)
    ensures TakeOffice(NodeOf(s), self, peers) == NodeOf(TakesOffice(s, self, peers, newTerm)) <==>
            s.role == Leader || (s.role == Candidate && s.term == newTerm)
  {
    LastOfStore(s.log);
  }

  /** Votes of term 4 make a node leader of term 5, in which it voted for somebody else. */
  lemma LateVotesElectFollower()
    ensures var (n, _, granted) := HandleVote(NodeOf(OnElection(NewServer.(term := 3), 1)), 2, 5, 0, 0, false);
            granted && n.votedFor == 2 && n.term == 5 && TakeOffice(n, 1, {1, 2, 3}).role == Leader
  {
    LastOfStore([]);
  }

  // ---- collecting what to apply ----

  lemma {:induction false} CollectIsIntended(s: Server)
    ensures CollectStore(NodeOf(s)) == NodeOf(Collect(s))
    decreases s.commit - s.applied
  {
    CollectStoreStep(NodeOf(s));
    if s.applied < s.commit && s.applied < |s.log| {
      CollectIsIntended(WithHanded(s));
      CollectStep(s);
    }
  }

  /** The server that has handed out one more entry. */
  function WithHanded(s: Server): Server
    requires s.applied < |s.log|
  {
    s.(applied := s.applied + 1, handed := s.handed + [s.log[s.applied]])
  }

  lemma CollectStep(s: Server)
    requires s.applied < s.commit && s.applied < |s.log|
    ensures Collect(s) == Collect(WithHanded(s))
  {
    var upTo := Min(s.commit, |s.log|);
    assert s.log[s.applied..upTo] == [s.log[s.applied]] + s.log[s.applied + 1..upTo];
    assert s.handed + s.log[s.applied..upTo] == s.handed + [s.log[s.applied]] + s.log[s.applied + 1..upTo];
  }

  lemma CollectStoreStep(n: NodeState)
    ensures CollectStore(n) ==
            if n.applied < n.commit && n.applied + 1 in n.log then
              CollectStore(n.(applied := n.applied + 1, handed := n.handed + [n.log[n.applied + 1]]))
            else n
  {
  }

  lemma {:induction false} CollectStoreFrame(n: NodeState)
    ensures CollectStore(n) == n.(applied := CollectStore(n).applied, handed := CollectStore(n).handed)
    decreases n.commit - n.applied
  {
    if n.applied < n.commit && n.applied + 1 in n.log {
      CollectStoreFrame(n.(applied := n.applied + 1, handed := n.handed + [n.log[n.applied + 1]]));
    }
  }

  lemma CollectStoreGrows(n: NodeState)
    ensures n.applied < n.commit && n.applied + 1 in n.log ==> CollectStore(n).applied > n.applied
    ensures CollectStore(n).applied >= n.applied
    decreases n.commit - n.applied
  {
  }

  // ---- the leader's own appends ----

  lemma StoreOfAppend(log: Log, entry: LogEntry)
    ensures StoreOf(log + [entry]) == StoreOf(log)[|log| + 1 := entry]
  {
  }

  /** The protocol's reading of the NoOp: the node still leads when it stores it. */
  function StoresNoOp(s: Server, self: NodeId, peers: set<NodeId>): Server {
    if s.role == Leader then OnLeaderAppend(s, self, peers, LogNoOp, []) else s
  }

  /** Storing this NoOp changes nothing: the node has it, counts it and, alone, has handed it out. */
  predicate HasNoOp(s: Server, self: NodeId, peers: set<NodeId>, lastIndex: nat) {
    && lastIndex < |s.log| && s.log[lastIndex] == LogEntry(lastIndex + 1, s.term, LogNoOp, [])
    && self in s.matchIndex && s.matchIndex[self] == lastIndex + 1
    && (|peers| == 1 ==> s.commit == lastIndex + 1 <= s.applied)
  }

  /**
   Between the two locked regions the lock is free.  The second does what the protocol asks exactly
   when the node still leads and its log did not grow, or it does not lead and has that NoOp already.
   */
  lemma NoOpIsIntendedIff(s: Server, self: NodeId, peers: set<NodeId>, lastIndex: nat)
    ensures StoreNoOp(NodeOf(s), self, peers, lastIndex) == NodeOf(StoresNoOp(s, self, peers)) <==>
            if s.role == Leader then lastIndex == |s.log| else HasNoOp(s, self, peers, lastIndex)
  {
    if s.role == Leader {
      LeaderNoOpIff(s, self, peers, lastIndex);
    } else {
      IdleNoOpIff(s, self, peers, lastIndex);
    }
  }

  lemma LeaderNoOpIff(s: Server, self: NodeId, peers: set<NodeId>, lastIndex: nat)
    ensures StoreNoOp(NodeOf(s), self, peers, lastIndex) == NodeOf(OnLeaderAppend(s, self, peers, LogNoOp, [])) <==>
            lastIndex == |s.log|
  {
    var entry := LogEntry(lastIndex + 1, s.term, LogNoOp, []);
    var n := NodeOf(s);
    var n1 := n.(log := n.log[entry.index := entry], matchIndex := n.matchIndex[self := entry.index]);
    if lastIndex == |s.log| {
      StoreOfAppend(s.log, entry);
      var s1 := s.(log := s.log + [entry], matchIndex := s.matchIndex[self := entry.index]);
      assert n1 == NodeOf(s1);
      CollectIsIntended(s1.(commit := entry.index));
    } else {
      CollectStoreFrame(n1.(commit := entry.index));
      assert StoreNoOp(n, self, peers, lastIndex).log == n1.log;
      var s' := OnLeaderAppend(s, self, peers, LogNoOp, []);
      assert |s'.log| == |s.log| + 1;
      assert |s.log| + 1 in NodeOf(s').log && |s.log| + 1 !in n1.log;
    }
  }

  lemma IdleNoOpIff(s: Server, self: NodeId, peers: set<NodeId>, lastIndex: nat)
    ensures StoreNoOp(NodeOf(s), self, peers, lastIndex) == NodeOf(s) <==> HasNoOp(s, self, peers, lastIndex)
  {
    var entry := LogEntry(lastIndex + 1, s.term, LogNoOp, []);
    var n := NodeOf(s);
    var n1 := n.(log := n.log[entry.index := entry], matchIndex := n.matchIndex[self := entry.index]);
    CollectStoreFrame(n1.(commit := entry.index));
    CollectStoreStep(n1.(commit := entry.index));
    assert n1.log[entry.index] == entry && n1.matchIndex[self] == entry.index;
    if HasNoOp(s, self, peers, lastIndex) {
      assert n1.log == n.log && n1.matchIndex == n.matchIndex;
    } else if StoreNoOp(n, self, peers, lastIndex) == n {
      assert n.log[entry.index] == entry;
      if |peers| == 1 {
        CollectStoreGrows(n1.(commit := entry.index));
      }
    }
  }

  /** The protocol's reading of handleProposal: the node leads at the moment it appends. */
  function Proposes(s: Server, self: NodeId, peers: set<NodeId>, data: seq<bv8>): Server {
    if s.role == Leader then OnLeaderAppend(s, self, peers, LogCommand, data) else s
  }

  /** The role is asked for before the lock is taken, so a node that stepped down meanwhile still appends. */
  lemma ProposalIsIntendedIff(s: Server, self: NodeId, peers: set<NodeId>, data: seq<bv8>)
    ensures StoreProposal(NodeOf(s), self, peers, data) == NodeOf(Proposes(s, self, peers, data)) <==> s.role == Leader
  {
    ProposalIsAppend(s, self, peers, data);
    ProposalAppends(s, self, peers, data);
  }

  /** The server with one more entry, which it counts as its own. */
  function WithEntry(s: Server, self: NodeId, entry: LogEntry): Server {
    s.(log := s.log + [entry], matchIndex := s.matchIndex[self := entry.index], nextIndex := s.nextIndex[self := entry.index + 1])
  }

  lemma ProposalIsAppend(s: Server, self: NodeId, peers: set<NodeId>, data: seq<bv8>)
    ensures StoreProposal(NodeOf(s), self, peers, data) == NodeOf(OnLeaderAppend(s, self, peers, LogCommand, data))
  {
    var entry := LogEntry(|s.log| + 1, s.term, LogCommand, data);
    LeaderAppendIs(s, self, peers, data);
    StoreProposalIs(s, self, peers, data);
    CommitAloneIsIntended(WithEntry(s, self, entry), peers, entry.index);
  }

  lemma LeaderAppendIs(s: Server, self: NodeId, peers: set<NodeId>, data: seq<bv8>)
    ensures var s1 := WithEntry(s, self, LogEntry(|s.log| + 1, s.term, LogCommand, data));
            OnLeaderAppend(s, self, peers, LogCommand, data) == if |peers| == 1 then Collect(s1.(commit := |s.log| + 1)) else s1
  {
  }

  lemma StoreProposalIs(s: Server, self: NodeId, peers: set<NodeId>, data: seq<bv8>)
    ensures StoreProposal(NodeOf(s), self, peers, data) ==
            CommitAlone(NodeOf(WithEntry(s, self, LogEntry(|s.log| + 1, s.term, LogCommand, data))), peers, |s.log| + 1)
  {
    LastOfStore(s.log);
    StoreOfAppend(s.log, LogEntry(|s.log| + 1, s.term, LogCommand, data));
  }

  lemma CommitAloneIsIntended(s: Server, peers: set<NodeId>, index: nat)
    ensures CommitAlone(NodeOf(s), peers, index) == NodeOf(if |peers| == 1 then Collect(s.(commit := index)) else s)
  {
    CollectIsIntended(s.(commit := index));
  }

  lemma ProposalAppends(s: Server, self: NodeId, peers: set<NodeId>, data: seq<bv8>)
    ensures StoreProposal(NodeOf(s), self, peers, data).log != NodeOf(s).log
  {
    LastOfStore(s.log);
    var n := NodeOf(s);
    var entry := LogEntry(|s.log| + 1, s.term, LogCommand, data);
    CollectStoreFrame(n.(log := n.log[entry.index := entry], matchIndex := n.matchIndex[self := entry.index],
                         nextIndex := n.nextIndex[self := entry.index + 1], commit := entry.index));
    assert entry.index in StoreProposal(n, self, peers, data).log && entry.index !in n.log;
  }

  // ---- (c), (d) AppendEntries on the receiving node ----

  ghost predicate Consecutive(prev: nat, entries: seq<LogEntry>) {
    forall i | 0 <= i < |entries| :: entries[i].index == prev + 1 + i
  }

  /** No entry of the request meets a stored entry of another term. */
  ghost predicate NoConflict(log: Log, prev: nat, entries: seq<LogEntry>) {
    forall i | 0 <= i < |entries| && prev + i < |log| :: log[prev + i].term == entries[i].term
  }

  /** The store after the first entries without a conflict. */
  function Extended(log: Log, prev: nat, entries: seq<LogEntry>): Log
    requires prev <= |log|
  {
    if prev + |entries| <= |log| then log else log + entries[|log| - prev..]
  }

  lemma {:induction false} NoConflictStores(log: Log, prev: nat, entries: seq<LogEntry>)
    requires prev <= |log| && Consecutive(prev, entries) && NoConflict(log, prev, entries)
    ensures StoreEntries(StoreOf(log), entries) == StoreOf(Extended(log, prev, entries))
    decreases |entries|
  {
    if entries != [] {
      var k := |entries| - 1;
      var front, last := entries[..k], entries[k];
      NoConflictStores(log, prev, front);
      StoreEntriesStep(StoreOf(log), entries);
      if prev + k < |log| {
        assert log[prev + k].term == last.term;
        StoreKnown(log, last);
      } else {
        ExtendedStep(log, prev, entries);
        StoreNew(Extended(log, prev, front), last);
      }
    }
  }

  lemma StoreEntriesStep(log: Store, entries: seq<LogEntry>)
    requires entries != []
    ensures StoreEntries(log, entries) == StoreEntry(StoreEntries(log, entries[..|entries| - 1]), entries[|entries| - 1])
  {
  }

  lemma ExtendedStep(log: Log, prev: nat, entries: seq<LogEntry>)
    requires prev <= |log| && entries != [] && prev + |entries| > |log|
    ensures Extended(log, prev, entries) == Extended(log, prev, entries[..|entries| - 1]) + [entries[|entries| - 1]]
  {
  }

  lemma StoreKnown(log: Log, entry: LogEntry)
    requires 1 <= entry.index <= |log| && log[entry.index - 1].term == entry.term
    ensures StoreEntry(StoreOf(log), entry) == StoreOf(log)
  {
  }

  lemma StoreNew(log: Log, entry: LogEntry)
    requires entry.index == |log| + 1
    ensures StoreEntry(StoreOf(log), entry) == StoreOf(log + [entry])
  {
    StoreOfAppend(log, entry);
  }

  lemma {:induction false} NoConflictMerges(log: Log, prev: nat, entries: seq<LogEntry>)
    requires prev <= |log| && NoConflict(log, prev, entries)
    ensures Merge(log, prev, entries) == Extended(log, prev, entries)
    decreases |entries|
  {
    if entries != [] {
      if prev < |log| {
        assert log[prev + 0].term == entries[0].term;
        forall i | 0 <= i < |entries[1..]| && prev + 1 + i < |log| ensures log[prev + 1 + i].term == entries[1..][i].term {
          assert log[prev + (i + 1)].term == entries[i + 1].term;
        }
        NoConflictMerges(log, prev + 1, entries[1..]);
      } else {
        NoConflictMerges(log[..prev] + [entries[0]], prev + 1, entries[1..]);
      }
    }
  }

  /** What is cut once stays absent: later entries have other indexes. */
  lemma {:induction false} AbsentStays(log: Store, prev: nat, entries: seq<LogEntry>, k: nat)
    requires Consecutive(prev, entries) && k <= |entries|
    requires prev + k !in StoreEntries(log, entries[..k])
    ensures prev + k !in StoreEntries(log, entries)
    decreases |entries|
  {
    if k < |entries| {
      var front := entries[..|entries| - 1];
      assert front[..k] == entries[..k];
      AbsentStays(log, prev, front, k);
    } else {
      assert entries[..k] == entries;
    }
  }

  /** The first conflicting entry is cut and never stored, so the store misses its index. */
  lemma ConflictLosesEntry(log: Log, prev: nat, entries: seq<LogEntry>) returns (x: nat)
    requires prev <= |log| && Consecutive(prev, entries) && !NoConflict(log, prev, entries)
    ensures prev < x <= prev + |entries| && x !in StoreEntries(StoreOf(log), entries)
  {
    var i := FirstConflict(log, prev, entries);
    x := prev + i + 1;
    var front := entries[..i];
    NoConflictStores(log, prev, front);
    var store := StoreOf(log);
    assert StoreEntries(store, front) == store;
    LastOfStore(log);
    assert entries[..i + 1][..i] == front;
    assert x !in StoreEntries(store, entries[..i + 1]);
    AbsentStays(store, prev, entries, i + 1);
  }

  lemma FirstConflict(log: Log, prev: nat, entries: seq<LogEntry>) returns (i: nat)
    requires !NoConflict(log, prev, entries)
    ensures i < |entries| && prev + i < |log| && log[prev + i].term != entries[i].term
    ensures NoConflict(log, prev, entries[..i])
  {
    i := 0;
    while i < |entries| && prev + i < |log| && log[prev + i].term == entries[i].term
      invariant i <= |entries|
      invariant forall j | 0 <= j < i :: prev + j < |log| && log[prev + j].term == entries[j].term
    {
      i := i + 1;
    }
  }

  /** The leader's commit index does not reach past what the request covers on this node. */
  ghost predicate BoundCovered(s: Server, prevIndex: nat, entries: seq<LogEntry>, commit: nat) {
    || commit <= s.commit
    || commit <= prevIndex + |entries|
    || |s.log| <= Max(s.commit, prevIndex + |entries|)
  }

  ghost predicate SameOutcome(s: Server, term: nat, prevIndex: nat, prevTerm: nat, entries: seq<LogEntry>, commit: nat) {
    var (n, t, ok) := HandleAppend(NodeOf(s), term, prevIndex, prevTerm, entries, commit);
    var (s', t', ok') := OnAppendRequest(s, term, prevIndex, prevTerm, entries, commit);
    n == NodeOf(s') && t == t' && ok == ok'
  }

  lemma PrevIsIntended(log: Log, prevIndex: nat, prevTerm: nat)
    ensures PrevFound(StoreOf(log), prevIndex, prevTerm) <==> PrevMatches(log, prevIndex, prevTerm)
  {
    LastOfStore(log);
  }

  /**
   HandleAppendEntries does what the protocol asks exactly when it refuses the request, or no entry
   conflicts and the commit bound is covered.
   */
  lemma AppendIsIntendedIff(s: Server, term: nat, prevIndex: nat, prevTerm: nat, entries: seq<LogEntry>, commit: nat)
    requires s.applied == s.commit <= |s.log| && Consecutive(prevIndex, entries)
    ensures SameOutcome(s, term, prevIndex, prevTerm, entries, commit) <==>
            (term < s.term || !PrevMatches(s.log, prevIndex, prevTerm)
             || (NoConflict(s.log, prevIndex, entries) && BoundCovered(s, prevIndex, entries, commit)))
  {
    PrevIsIntended(s.log, prevIndex, prevTerm);
    if term >= s.term && PrevMatches(s.log, prevIndex, prevTerm) {
      if NoConflict(s.log, prevIndex, entries) {
        NoConflictStores(s.log, prevIndex, entries);
        NoConflictMerges(s.log, prevIndex, entries);
        BoundIsIntendedIff(s, term, prevIndex, prevTerm, entries, commit);
      } else {
        ConflictDiffers(s, term, prevIndex, prevTerm, entries, commit);
      }
    }
  }

  lemma ConflictDiffers(s: Server, term: nat, prevIndex: nat, prevTerm: nat, entries: seq<LogEntry>, commit: nat)
    requires term >= s.term && PrevMatches(s.log, prevIndex, prevTerm)
    requires Consecutive(prevIndex, entries) && !NoConflict(s.log, prevIndex, entries)
    ensures !SameOutcome(s, term, prevIndex, prevTerm, entries, commit)
  {
    PrevIsIntended(s.log, prevIndex, prevTerm);
    MergeCovers(s.log, prevIndex, entries);
    var x := ConflictLosesEntry(s.log, prevIndex, entries);
    var n := Adopted(NodeOf(s), term).(role := Follower);
    var n2 := n.(log := StoreEntries(n.log, entries));
    CollectStoreFrame(n2.(commit := Min(commit, LastIndex(n2.log))));
    assert x !in HandleAppend(NodeOf(s), term, prevIndex, prevTerm, entries, commit).0.log;
    assert x in NodeOf(OnAppendRequest(s, term, prevIndex, prevTerm, entries, commit).0).log;
  }

  lemma BoundIsIntendedIff(s: Server, term: nat, prevIndex: nat, prevTerm: nat, entries: seq<LogEntry>, commit: nat)
    requires s.applied == s.commit <= |s.log| && term >= s.term && PrevMatches(s.log, prevIndex, prevTerm)
    requires StoreEntries(StoreOf(s.log), entries) == StoreOf(Extended(s.log, prevIndex, entries))
    requires Merge(s.log, prevIndex, entries) == Extended(s.log, prevIndex, entries)
    ensures SameOutcome(s, term, prevIndex, prevTerm, entries, commit) <==> BoundCovered(s, prevIndex, entries, commit)
  {
    var s2 := AdoptTerm(s, term).(role := Follower, log := Extended(s.log, prevIndex, entries));
    HandleAccepts(s, s2, term, prevIndex, prevTerm, entries, commit);
    RequestAccepts(s, s2, term, prevIndex, prevTerm, entries, commit);
    BoundIff(s, s2, prevIndex, entries, commit);
  }

  /** The two bounds agree on the extended log just when they do on the log before. */
  lemma BoundIff(s: Server, s2: Server, prevIndex: nat, entries: seq<LogEntry>, commit: nat)
    requires prevIndex <= |s.log| && s2.applied == s2.commit == s.commit <= |s.log|
    requires s2.log == Extended(s.log, prevIndex, entries)
    ensures CommitUpTo(NodeOf(s2), commit) == NodeOf(Collect(s2.(commit := Max(s2.commit, Min(commit, prevIndex + |entries|))))) <==>
            BoundCovered(s, prevIndex, entries, commit)
  {
    CommitUpToIsIntendedIff(s2, commit, prevIndex + |entries|);
  }

  lemma RequestAccepts(s: Server, s2: Server, term: nat, prevIndex: nat, prevTerm: nat, entries: seq<LogEntry>, commit: nat)
    requires term >= s.term && PrevMatches(s.log, prevIndex, prevTerm)
    requires s2 == AdoptTerm(s, term).(role := Follower, log := Merge(s.log, prevIndex, entries))
    ensures OnAppendRequest(s, term, prevIndex, prevTerm, entries, commit)
            == (Collect(s2.(commit := Max(s2.commit, Min(commit, prevIndex + |entries|)))), term, true)
  {
  }

  lemma HandleAccepts(s: Server, s2: Server, term: nat, prevIndex: nat, prevTerm: nat, entries: seq<LogEntry>, commit: nat)
    requires term >= s.term && PrevMatches(s.log, prevIndex, prevTerm)
    requires StoreEntries(StoreOf(s.log), entries) == StoreOf(s2.log)
    requires s2 == AdoptTerm(s, term).(role := Follower, log := s2.log)
    ensures HandleAppend(NodeOf(s), term, prevIndex, prevTerm, entries, commit) == (CommitUpTo(NodeOf(s2), commit), term, true)
  {
    PrevIsIntended(s.log, prevIndex, prevTerm);
    AdoptIsIntended(s, term);
    assert Adopted(NodeOf(s), term).(role := Follower).(log := StoreOf(s2.log)) == NodeOf(s2);
  }

  lemma CommitUpToIsIntendedIff(s: Server, commit: nat, covered: nat)
    requires s.applied == s.commit <= |s.log| && covered <= |s.log|
    ensures CommitUpTo(NodeOf(s), commit) == NodeOf(Collect(s.(commit := Max(s.commit, Min(commit, covered))))) <==>
            commit <= s.commit || commit <= covered || |s.log| <= Max(s.commit, covered)
  {
    LastOfStore(s.log);
    var s1 := s.(commit := if commit > s.commit then Min(commit, |s.log|) else s.commit);
    CollectIsIntended(s1);
    assert CommitUpTo(NodeOf(s), commit) == NodeOf(Collect(s1));
  }

  const OLD_ENTRY := LogEntry(1, 1, LogCommand, [])
  const NEW_ENTRY := LogEntry(1, 2, LogNoOp, [])

  /** A command stored between the two locked regions of becomeLeader is overwritten by the NoOp of its own leader. */
  lemma NoOpOverwrites()
    ensures var s := NewServer.(role := Leader, term := 2, log := [LogEntry(1, 2, LogCommand, [])]);
            StoreNoOp(NodeOf(s), 1, {1, 2, 3}, 0).log == map[1 := NEW_ENTRY]
  {
    var peers := {1, 2, 3};
    assert |peers| == 3;
    var log := [LogEntry(1, 2, LogCommand, [])];
    assert StoreOf(log)[1 := NEW_ENTRY] == map[1 := NEW_ENTRY];
  }

  /**
   A leader of term 4 votes for node 2 in term 5 before it stores its NoOp, which then becomes an
   entry of term 5; the leader of term 5 holds a command at the same index and term.
   */
  lemma NoOpSplitsTerm()
    ensures var peers, mine := {1, 2, 3}, [LogEntry(1, 1, LogCommand, []), LogEntry(2, 1, LogCommand, [])];
            var elected := TakeOffice(Candidacy(NodeOf(NewServer.(term := 3, log := mine)), 1), 1, peers);
            var (voter, _, granted) := HandleVote(elected, 2, 5, 1, 3, false);
            var late := StoreNoOp(voter, 1, peers, 2);
            var rival := TakeOffice(Candidacy(NodeOf(NewServer.(term := 4, log := [LogEntry(1, 3, LogCommand, [])])), 2), 2, peers);
            var leader := StoreProposal(StoreNoOp(rival, 2, peers, 1), 2, peers, []);
            && elected.role == Leader && granted && voter.role == Follower && voter.log == elected.log
            && 3 in late.log && late.log[3] == LogEntry(3, 5, LogNoOp, [])
            && 3 in leader.log && leader.log[3] == LogEntry(3, 5, LogCommand, [])
  {
    var peers, mine := {1, 2, 3}, [LogEntry(1, 1, LogCommand, []), LogEntry(2, 1, LogCommand, [])];
    var other := [LogEntry(1, 3, LogCommand, [])];
    var noOp := LogEntry(2, 5, LogNoOp, []);
    assert |peers| == 3;
    LastOfStore(mine);
    LastOfStore(other);
    LastOfStore(other + [noOp]);
    StoreOfAppend(other, noOp);
  }

  /** A node that has stepped down meanwhile appends a command in a term it does not lead. */
  lemma FollowerAppends()
    ensures var n := StoreProposal(NodeOf(NewServer.(term := 2)), 1, {1, 2, 3}, []);
            n.role == Follower && n.log == map[1 := LogEntry(1, 2, LogCommand, [])]
  {
    var peers := {1, 2, 3};
    assert |peers| == 3;
    var none: Log := [];
    LastOfStore(none);
    assert StoreOf(none) == map[];
  }

  /** A request of term 1 carries an entry of term 2. */
  lemma OldTermSent()
    ensures var s := NewServer.(role := Leader, term := 2, log := [NEW_ENTRY], nextIndex := map[2 := 1]);
            var m := Request(NodeOf(s), 1, 2, 1, 0);
            m.term == 1 && m.entries == [NEW_ENTRY] && NEW_ENTRY.term == 2
  {
    LastOfStore([NEW_ENTRY]);
    var store := StoreOf([NEW_ENTRY]);
    assert 1 in store && store[1] == NEW_ENTRY;
    BatchStep(store, 1, 2, 0);
    BatchStep(store, 2, 2, EntrySize(NEW_ENTRY));
  }

  /** The node reports success for an entry it has just thrown away. */
  lemma ConflictReportsSuccess()
    ensures var (n, _, success) := HandleAppend(NodeOf(NewServer.(term := 1, log := [OLD_ENTRY])), 2, 0, 0, [NEW_ENTRY], 0);
            success && n.log == map[]
  {
    LastOfStore([OLD_ENTRY]);
    var store := StoreOf([OLD_ENTRY]);
    assert StoreEntries(store, []) == store;
    assert StoreEntries(store, [NEW_ENTRY]) == StoreEntry(store, NEW_ENTRY) == map[];
  }

  /** A heartbeat that covers nothing commits, and hands out, an entry its sender never saw. */
  lemma HeartbeatCommitsTooMuch()
    ensures var (n, _, success) := HandleAppend(NodeOf(NewServer.(term := 1, log := [OLD_ENTRY])), 2, 0, 0, [], 1);
            success && n.commit == 1 && n.handed == [OLD_ENTRY]
  {
    var log := [OLD_ENTRY];
    LastOfStore(log);
    var s := NewServer.(term := 2, log := log, commit := 1);
    CollectIsIntended(s);
    assert Collect(s).handed == log;
    assert StoreEntries(StoreOf(log), []) == StoreOf(log);
  }

  // ---- (e) replies to AppendEntries ----

  lemma HoldersAreIntended(s: Server, self: NodeId, peers: set<NodeId>, index: nat)
    ensures HoldersIn(NodeOf(s), self, peers, index) == Holders(s, self, peers, index)
  {
  }

  ghost predicate CanAdvance(s: Server, self: NodeId, peers: set<NodeId>) {
    && s.commit < |s.log| && s.log[s.commit].term == s.term
    && (1 + |Holders(s, self, peers, s.commit + 1)|) * 2 > |peers|
  }

  lemma {:induction false} AdvanceIsIntended(s: Server, self: NodeId, peers: set<NodeId>)
    ensures AdvanceStore(NodeOf(s), self, peers) == NodeOf(AdvanceCommit(s, self, peers))
    decreases |s.log| - s.commit
  {
    CommittableIff(s, self, peers);
    AdvanceStoreStep(NodeOf(s), self, peers);
    if CanAdvance(s, self, peers) {
      AdvanceIsIntended(s.(commit := s.commit + 1), self, peers);
    }
  }

  lemma CommittableIff(s: Server, self: NodeId, peers: set<NodeId>)
    ensures Committable(NodeOf(s), self, peers) <==> CanAdvance(s, self, peers)
  {
    LastOfStore(s.log);
    HoldersAreIntended(s, self, peers, s.commit + 1);
  }

  lemma AdvanceStoreStep(n: NodeState, self: NodeId, peers: set<NodeId>)
    ensures AdvanceStore(n, self, peers) ==
            if Committable(n, self, peers) then AdvanceStore(n.(commit := n.commit + 1), self, peers) else n
  {
  }

  function CreditedBy(s: Server, peer: NodeId, prevIndex: nat, count: nat): Server {
    if count > 0 then
      s.(nextIndex := s.nextIndex[peer := prevIndex + count + 1], matchIndex := s.matchIndex[peer := prevIndex + count])
    else
      s.(nextIndex := s.nextIndex[peer := prevIndex + 1])
  }

  /** The reply leaves this node's indexes, commit index and applied entries as they are. */
  ghost predicate ReplyMovesNothing(s: Server, self: NodeId, peers: set<NodeId>, peer: NodeId, prevIndex: nat, count: nat, success: bool) {
    if success then
      CreditedBy(s, peer, prevIndex, count) == s && !CanAdvance(s, self, peers)
    else
      NextOf(s, peer) <= 1
  }

  /**
   A reply is handled as the protocol asks exactly when it steps the node down, or does not reach a
   leader, or belongs to the current leadership, or moves nothing.
   */
  lemma ReplyIsIntendedIff(s: Server, self: NodeId, peers: set<NodeId>, peer: NodeId,
                           asked: nat, prevIndex: nat, count: nat, replyTerm: nat, success: bool)
    requires s.applied == s.commit <= |s.log|
    ensures AppendReply(NodeOf(s), self, peers, peer, asked, prevIndex, count, replyTerm, success)
            == NodeOf(OnAppendReply(s, self, peers, peer, asked, prevIndex, count, replyTerm, success)) <==>
            (replyTerm != asked || s.role != Leader || s.term == asked
             || ReplyMovesNothing(s, self, peers, peer, prevIndex, count, success))
  {
    if replyTerm == asked && s.role == Leader {
      var s1 := CreditedBy(s, peer, prevIndex, count);
      if success {
        AdvanceIsIntended(s1, self, peers);
        CollectIsIntended(AdvanceCommit(s1, self, peers));
        if s.term != asked {
          StaleReplyMoves(s, s1, self, peers);
        }
      }
    }
  }

  lemma StaleReplyMoves(s: Server, s1: Server, self: NodeId, peers: set<NodeId>)
    requires s.applied == s.commit <= |s.log|
    requires s1 == s.(nextIndex := s1.nextIndex, matchIndex := s1.matchIndex)
    ensures NodeOf(Collect(AdvanceCommit(s1, self, peers))) == NodeOf(s) <==> s1 == s && !CanAdvance(s, self, peers)
  {
    AdvanceCommitBound(s1, self, peers);
    var s2 := AdvanceCommit(s1, self, peers);
    CollectKeeps(s2);
    if CanAdvance(s1, self, peers) {
      AdvanceCommitBound(s1.(commit := s1.commit + 1), self, peers);
      assert s2.commit > s.commit;
    } else {
      assert s2 == s1 && Collect(s1) == s1;
    }
  }

  lemma CollectKeeps(s: Server)
    ensures Collect(s).commit == s.commit && Collect(s).nextIndex == s.nextIndex && Collect(s).matchIndex == s.matchIndex
  {
  }

  /** A success from term 1 commits, in term 2 of the same leader, an entry the peer never received. */
  lemma LateSuccessCommits()
    ensures var s := NewServer.(role := Leader, term := 2, log := [NEW_ENTRY]);
            var n := AppendReply(NodeOf(s), 1, {1, 2, 3}, 2, 1, 0, 1, 1, true);
            n.commit == 1 && n.handed == [NEW_ENTRY]
  {
    var peers := {1, 2, 3};
    var s := NewServer.(role := Leader, term := 2, log := [NEW_ENTRY]);
    var s1 := CreditedBy(s, 2, 0, 1);
    assert 2 in Holders(s1, 1, peers, 1);
    assert |Holders(s1, 1, peers, 1)| >= 1 by {
      SubsetSize({2}, Holders(s1, 1, peers, 1));
    }
    assert |peers| == 3;
    var s2 := s1.(commit := 1);
    assert AdvanceCommit(s1, 1, peers) == AdvanceCommit(s2, 1, peers) == s2;
    AdvanceIsIntended(s1, 1, peers);
    CollectIsIntended(s2);
  }

  // ---- requests to append ----

  /** The store holds the log. */
  ghost predicate Holds(store: Store, log: Log) {
    forall k | 1 <= k <= |log| :: k in store && store[k] == log[k - 1]
  }

  lemma {:induction false} BatchIsRun(log: Log, store: Store, from: nat, size: nat) returns (count: nat)
    requires 1 <= from <= |log| + 1 && Holds(store, log)
    ensures from - 1 + count <= |log|
    ensures Batch(store, from, |log| + 1, size) == log[from - 1..from - 1 + count]
    ensures count == 0 ==> from == |log| + 1
    decreases |log| + 1 - from
  {
    BatchStep(store, from, |log| + 1, size);
    if from == |log| + 1 {
      count := 0;
    } else {
      var size' := size + EntrySize(log[from - 1]);
      if size' > BATCH_SIZE {
        count := 1;
      } else {
        var rest := BatchIsRun(log, store, from + 1, size');
        SliceGrows(log, from, rest);
        count := rest + 1;
      }
    }
  }

  lemma SliceGrows(log: Log, from: nat, n: nat)
    requires 1 <= from && from + n <= |log|
    ensures log[from - 1..from + n] == [log[from - 1]] + log[from..from + n]
  {
  }

  /** In this state the protocol may send the request. */
  ghost predicate MaySend(peers: set<NodeId>, st: State, i: NodeId, j: NodeId, m: Message) {
    exists count, commit :: Sends(peers, st, i, j, count, commit, m)
  }

  ghost predicate Sends(peers: set<NodeId>, st: State, i: NodeId, j: NodeId, count: nat, commit: nat, m: Message) {
    && DoSendAppend(peers, st, st.(sent := st.sent + {m}), i, j, count, commit)
    && m == RequestTo(st.servers[i], i, j, NextOf(st.servers[i], j) - 1, count, commit)
  }

  /**
   Neither the role nor the term is looked at when the request is built.  The protocol may send it
   exactly when the node leads, the term read earlier is still its own, and so is the commit index
   or it has grown.
   */
  lemma RequestIsIntendedIff(peers: set<NodeId>, st: State, i: NodeId, j: NodeId, term: nat, commit: nat)
    requires i in st.servers && j in peers && j != i
    requires 1 <= NextOf(st.servers[i], j) <= |st.servers[i].log| + 1
    ensures MaySend(peers, st, i, j, Request(NodeOf(st.servers[i]), i, j, term, commit)) <==>
            var me := st.servers[i]; me.role == Leader && term == me.term && commit <= me.commit
  {
    var me := st.servers[i];
    var m := Request(NodeOf(me), i, j, term, commit);
    var count := RequestIsBatch(me, i, j, term, commit);
    if me.role == Leader && term == me.term && commit <= me.commit {
      assert Sends(peers, st, i, j, count, commit, m);
    }
  }

  /** The entries are one batch behind the next index, empty only at the end of the log. */
  lemma RequestIsBatch(s: Server, self: NodeId, peer: NodeId, term: nat, commit: nat) returns (count: nat)
    requires 1 <= NextOf(s, peer) <= |s.log| + 1
    ensures NextOf(s, peer) - 1 + count <= |s.log|
    ensures count == 0 ==> NextOf(s, peer) == |s.log| + 1
    ensures Request(NodeOf(s), self, peer, term, commit)
            == RequestTo(s.(term := term), self, peer, NextOf(s, peer) - 1, count, commit)
  {
    LastOfStore(s.log);
    count := BatchIsRun(s.log, StoreOf(s.log), NextOf(s, peer), 0);
  }

  /** A leader of term 1 grants its vote in term 2 after its role was looked at, and sends a request of term 2. */
  lemma FollowerSends(peers: set<NodeId>, st: State)
    ensures var log := [LogEntry(1, 1, LogCommand, [])];
            var leader := NodeOf(NewServer.(role := Leader, term := 1, log := log, nextIndex := map[3 := 1]));
            var (n, _, granted) := HandleVote(leader, 2, 2, 1, 1, false);
            var m := Request(n, 1, 3, n.term, n.commit);
            && granted && m.term == 2 && m.entries == log
            && (1 in st.servers && NodeOf(st.servers[1]) == n ==> !MaySend(peers, st, 1, 3, m))
  {
    var log := [LogEntry(1, 1, LogCommand, [])];
    LastOfStore(log);
    var n := HandleVote(NodeOf(NewServer.(role := Leader, term := 1, log := log, nextIndex := map[3 := 1])), 2, 2, 1, 1, false).0;
    BatchStep(n.log, 1, 2, 0);
    BatchStep(n.log, 2, 2, EntrySize(log[0]));
  }
}
