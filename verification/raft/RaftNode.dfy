/**
 The node's own code (internal/raft/run.go, transport.go, node.go, storage.go): one method for each
 region that runs under the node's lock, proved against the functions of RaftStore.  Timers,
 tickers, logging, the known leader id and the callers waiting for their proposals are left out.
 */
module RaftNode {
  import opened RaftTypes
  import opened RaftStore

  lemma SetOneMore(m: map<NodeId, nat>, done: set<NodeId>, p: NodeId, value: nat)
    ensures SetAll(m, done + {p}, value) == SetAll(m, done, value)[p := value]
  {
  }

  lemma DoneOneMore(peers: set<NodeId>, rest: set<NodeId>, self: NodeId, p: NodeId)
    requires p in rest && rest <= peers
    ensures peers - (rest - {p}) - {self} == if p == self then peers - rest - {self} else peers - rest - {self} + {p}
  {
  }

  lemma SetNone(m: map<NodeId, nat>, value: nat)
    ensures SetAll(m, {}, value) == m
  {
  }

  /** What is in hand, and what the store adds to it from i on. */
  ghost predicate Batching(log: Store, from: nat, to: nat, entries: seq<LogEntry>, i: nat, size: nat) {
    entries + Batch(log, i, to, size) == Batch(log, from, to, 0)
  }

  lemma BatchEnds(log: Store, from: nat, to: nat, entries: seq<LogEntry>, i: nat, size: nat)
    requires Batching(log, from, to, entries, i, size) && (i >= to || i !in log)
    ensures entries == Batch(log, from, to, 0)
  {
  }

  lemma BatchGoesOn(log: Store, from: nat, to: nat, entries: seq<LogEntry>, i: nat, size: nat)
    requires Batching(log, from, to, entries, i, size) && i < to && i in log
    ensures var taken := size + EntrySize(log[i]);
            if taken > BATCH_SIZE then entries + [log[i]] == Batch(log, from, to, 0)
            else Batching(log, from, to, entries + [log[i]], i + 1, taken)
  {
    var taken := size + EntrySize(log[i]);
    BatchStep(log, i, to, size);
    if taken <= BATCH_SIZE {
      Regrouped(entries, log[i], Batch(log, i + 1, to, taken));
    } else {
      Regrouped(entries, log[i], []);
    }
  }

  lemma Regrouped(entries: seq<LogEntry>, entry: LogEntry, rest: seq<LogEntry>)
    ensures entries + ([entry] + rest) == entries + [entry] + rest
  {
  }

  /** The stored entries from an index on. */
  predicate AreCopies(log: Store, from: nat, entries: seq<LogEntry>) {
    forall k | from <= k < from + |entries| :: k in log && entries[k - from] == log[k]
  }

  lemma Copied(log: Store, from: nat, entries: seq<LogEntry>, entry: LogEntry)
    requires AreCopies(log, from, entries) && from + |entries| in log && entry == log[from + |entries|]
    ensures AreCopies(log, from, entries + [entry])
  {
  }

  class Node {
    const self: NodeId
    const peers: set<NodeId>

    var role: Role
    var currentTerm: nat
    var votedFor: NodeId
    var log: Store
    var commitIndex: nat
    var lastApplied: nat
    var nextIndex: map<NodeId, nat>
    var matchIndex: map<NodeId, nat>
    var handed: seq<LogEntry>

    function View(): NodeState
      reads this
    {
      NodeState(role, currentTerm, votedFor, log, commitIndex, lastApplied, nextIndex, matchIndex, handed)
    }

    constructor (self: NodeId, peers: set<NodeId>)
      ensures this.self == self && this.peers == peers
      ensures View() == NodeState(Follower, 0, NOBODY, map[], 0, 0, map[], map[], [])
    {
      this.self, this.peers := self, peers;
      role, currentTerm, votedFor, log := Follower, 0, NOBODY, map[];
      commitIndex, lastApplied, nextIndex, matchIndex, handed := 0, 0, map[], map[], [];
    }

    /** Nothing but the vote and the peer indexes may have changed. */
    twostate predicate KeepsLog()
      reads this
    {
      unchanged(`log, `commitIndex, `lastApplied, `handed)
    }

    /** What is committed and stored has been handed out, up to a gap. */
    predicate AllApplied()
      reads `log, `commitIndex, `lastApplied
    {
      lastApplied >= commitIndex || lastApplied + 1 !in log
    }

    // ---- voting ----

    /** The log comparison of both kinds of vote request. */
    method IsLogOk(lastIndex: nat, lastTerm: nat) returns (ok: bool)
      ensures ok == LogOkFor(View(), lastIndex, lastTerm)
      ensures ok <==> NotBehindLast(log, lastIndex, lastTerm)
    {
      var myIndex, myTerm := LastIndex(log), LastTermIn(log);
      LastIsNotBehind(log, lastIndex, lastTerm);
      ok := false;
      if lastTerm > myTerm {
        ok := true;
      } else if lastTerm == myTerm && lastIndex >= myIndex {
        ok := true;
      }
    }

    method HandleRequestVote(candidate: NodeId, term: nat, lastIndex: nat, lastTerm: nat, pre: bool)
      returns (replyTerm: nat, granted: bool)
      modifies this
      ensures (View(), replyTerm, granted) == HandleVote(old(View()), candidate, term, lastIndex, lastTerm, pre)
      ensures granted <==>
                && term >= old(currentTerm)
                && NotBehindLast(old(log), lastIndex, lastTerm)
                && (pre || term > old(currentTerm) || old(votedFor) == NOBODY || old(votedFor) == candidate)
    {
      replyTerm, granted := currentTerm, false;
      if term < currentTerm {
        return;
      }
      if pre {
        granted := IsLogOk(lastIndex, lastTerm);
        return;
      }
      if term > currentTerm {
        currentTerm, votedFor, role := term, NOBODY, Follower;
        replyTerm := term;
      }
      if votedFor != NOBODY && votedFor != candidate {
        return;
      }
      var logOk := IsLogOk(lastIndex, lastTerm);
      if !logOk {
        return;
      }
      votedFor, role := candidate, Follower;
      granted := true;
    }

    method StartElection()
      modifies this
      ensures View() == Candidacy(old(View()), self)
      ensures role == Candidate && currentTerm == old(currentTerm) + 1 && votedFor == self
      ensures KeepsLog() && unchanged(`nextIndex, `matchIndex)
    {
      role := Candidate;
      currentTerm := currentTerm + 1;
      votedFor := self;
    }

    method LoseElection()
      modifies this
      ensures View() == ElectionLost(old(View()))
      ensures role == if old(role) == Candidate then Follower else old(role)
      ensures KeepsLog() && unchanged(`currentTerm, `votedFor, `nextIndex, `matchIndex)
    {
      if role == Candidate {
        role := Follower;
      }
    }

    method HandleVoteReply(known: nat, replyTerm: nat)
      modifies this
      ensures View() == VoteReply(old(View()), known, replyTerm)
      ensures if replyTerm > known then currentTerm == replyTerm && votedFor == NOBODY && role == Follower
              else unchanged(`currentTerm, `votedFor, `role)
      ensures KeepsLog() && unchanged(`nextIndex, `matchIndex)
    {
      if replyTerm > known {
        currentTerm, votedFor, role := replyTerm, NOBODY, Follower;
      }
    }

    method StepDown(term: nat)
      modifies this
      ensures View() == StepDownTo(old(View()), term)
      ensures role == Follower
      ensures if term > old(currentTerm) then currentTerm == term && votedFor == NOBODY else unchanged(`currentTerm, `votedFor)
      ensures KeepsLog() && unchanged(`nextIndex, `matchIndex)
    {
      if term > currentTerm {
        currentTerm, votedFor := term, NOBODY;
      }
      role := Follower;
    }

    method BecomeLeader() returns (lastIndex: nat)
      modifies this
      ensures View() == TakeOffice(old(View()), self, peers)
      ensures lastIndex == LastIndex(log)
      ensures role == Leader && KeepsLog() && unchanged(`currentTerm, `votedFor)
      ensures if old(role) == Leader then unchanged(`nextIndex, `matchIndex)
              else
                && (forall p | p in peers && p != self ::
                      p in nextIndex && nextIndex[p] == lastIndex + 1 && p in matchIndex && matchIndex[p] == 0)
                && self in matchIndex && matchIndex[self] == lastIndex
    {
      lastIndex := LastIndex(log);
      if role == Leader {
        return;
      }
      role := Leader;
      ResetIndexes(lastIndex);
      matchIndex := matchIndex[self := lastIndex];
    }

    method ResetIndexes(lastIndex: nat)
      modifies `nextIndex, `matchIndex
      ensures nextIndex == SetAll(old(nextIndex), peers - {self}, lastIndex + 1)
      ensures matchIndex == SetAll(old(matchIndex), peers - {self}, 0)
    {
      var rest := peers;
      ghost var done: set<NodeId> := {};
      ghost var next0, match0 := nextIndex, matchIndex;
      SetNone(next0, lastIndex + 1);
      SetNone(match0, 0);
      while rest != {}
        invariant rest <= peers && done == peers - rest - {self}
        invariant nextIndex == SetAll(next0, done, lastIndex + 1)
        invariant matchIndex == SetAll(match0, done, 0)
        decreases |rest|
      {
        var p :| p in rest;
        DoneOneMore(peers, rest, self, p);
        rest := rest - {p};
        if p != self {
          ResetIndex(p, lastIndex, next0, match0, done);
          done := done + {p};
        }
      }
      assert done == peers - {self};
    }

    method ResetIndex(p: NodeId, lastIndex: nat, ghost next0: map<NodeId, nat>, ghost match0: map<NodeId, nat>, ghost done: set<NodeId>)
      requires nextIndex == SetAll(next0, done, lastIndex + 1) && matchIndex == SetAll(match0, done, 0)
      modifies `nextIndex, `matchIndex
      ensures nextIndex == SetAll(next0, done + {p}, lastIndex + 1) && matchIndex == SetAll(match0, done + {p}, 0)
    {
      SetOneMore(next0, done, p, lastIndex + 1);
      SetOneMore(match0, done, p, 0);
      nextIndex := nextIndex[p := lastIndex + 1];
      matchIndex := matchIndex[p := 0];
    }

    // ---- applying and the leader's own appends ----

    method CollectApplyOps() returns (ops: seq<LogEntry>)
      modifies `lastApplied, `handed
      ensures View() == CollectStore(old(View()))
      ensures handed == old(handed) + ops && lastApplied == old(lastApplied) + |ops|
      ensures AreCopies(log, old(lastApplied) + 1, ops)
      ensures AllApplied() && (|ops| > 0 ==> lastApplied <= commitIndex)
    {
      ops := [];
      while lastApplied < commitIndex
        invariant CollectStore(View()) == CollectStore(old(View()))
        invariant handed == old(handed) + ops && lastApplied == old(lastApplied) + |ops| && (|ops| > 0 ==> lastApplied <= commitIndex)
        invariant AreCopies(log, old(lastApplied) + 1, ops)
        decreases commitIndex - lastApplied
      {
        var idx := lastApplied + 1;
        if idx !in log {
          break;
        }
        Copied(log, old(lastApplied) + 1, ops, log[idx]);
        lastApplied := idx;
        ops := ops + [log[idx]];
        handed := handed + [log[idx]];
      }
    }

    method CommitIfAlone(index: nat)
      modifies `commitIndex, `lastApplied, `handed
      ensures View() == CommitAlone(old(View()), peers, index)
      ensures if |peers| == 1 then commitIndex == index && AllApplied() else unchanged(`commitIndex, `lastApplied, `handed)
    {
      if |peers| == 1 {
        commitIndex := index;
        var _ := CollectApplyOps();
      }
    }

    method AppendNoOp(lastIndex: nat)
      modifies this
      ensures View() == StoreNoOp(old(View()), self, peers, lastIndex)
      ensures log == old(log)[lastIndex + 1 := LogEntry(lastIndex + 1, currentTerm, LogNoOp, [])]
      ensures matchIndex == old(matchIndex)[self := lastIndex + 1] && unchanged(`role, `currentTerm, `votedFor, `nextIndex)
      ensures if |peers| == 1 then commitIndex == lastIndex + 1 && AllApplied() else unchanged(`commitIndex, `lastApplied, `handed)
    {
      var entry := LogEntry(lastIndex + 1, currentTerm, LogNoOp, []);
      log := log[entry.index := entry];
      matchIndex := matchIndex[self := entry.index];
      CommitIfAlone(entry.index);
    }

    method HandleProposal(data: seq<bv8>)
      modifies this
      ensures View() == StoreProposal(old(View()), self, peers, data)
      ensures var index := LastIndex(old(log)) + 1;
              && log == old(log)[index := LogEntry(index, currentTerm, LogCommand, data)]
              && matchIndex == old(matchIndex)[self := index] && nextIndex == old(nextIndex)[self := index + 1]
              && (if |peers| == 1 then commitIndex == index && AllApplied() else unchanged(`commitIndex, `lastApplied, `handed))
      ensures unchanged(`role, `currentTerm, `votedFor)
    {
      var entry := LogEntry(LastIndex(log) + 1, currentTerm, LogCommand, data);
      log := log[entry.index := entry];
      matchIndex := matchIndex[self := entry.index];
      nextIndex := nextIndex[self := entry.index + 1];
      CommitIfAlone(entry.index);
    }

    // ---- AppendEntries on the receiving node ----

    method DeleteRange(from: nat, to: nat)
      modifies `log
      ensures log == Without(old(log), from, to)
    {
      var i := from;
      while i <= to
        invariant from <= i && (i <= to + 1 || i == from)
        invariant log == map k | k in old(log) && !(from <= k < i) :: old(log)[k]
      {
        log := log - {i};
        i := i + 1;
      }
    }

    /** The first index of the run of entries of one term that ends at `last`. */
    method ConflictIndex(last: nat) returns (first: nat)
      requires last in log
      ensures StartsRun(log, first, last)
    {
      first := last;
      while first > 0
        invariant first <= last
        invariant forall k | first <= k <= last :: k in log && log[k].term == log[last].term
      {
        if first - 1 !in log || log[first - 1].term != log[last].term {
          break;
        }
        first := first - 1;
      }
    }

    method StoreNewEntries(entries: seq<LogEntry>)
      modifies `log
      ensures log == StoreEntries(old(log), entries)
    {
      var i := 0;
      while i < |entries|
        invariant i <= |entries|
        invariant log == StoreEntries(old(log), entries[..i])
      {
        var entry := entries[i];
        ghost var before := log;
        if entry.index in log {
          if log[entry.index].term != entry.term {
            var last := LastIndex(log);
            if entry.index <= last {
              DeleteRange(entry.index, last);
            }
          }
        } else {
          log := log[entry.index := entry];
        }
        assert log == StoreEntry(before, entry);
        assert entries[..i + 1][..i] == entries[..i];
        i := i + 1;
      }
      assert entries[..i] == entries;
    }

    method HandleAppendEntries(term: nat, prevIndex: nat, prevTerm: nat, entries: seq<LogEntry>, commit: nat)
      returns (replyTerm: nat, success: bool, conflict: nat)
      modifies this
      ensures (View(), replyTerm, success) == HandleAppend(old(View()), term, prevIndex, prevTerm, entries, commit)
      ensures ReportsConflict(old(View()), term, prevIndex, prevTerm, conflict)
      ensures success <==>
                && term >= old(currentTerm)
                && (prevIndex == 0 || (prevIndex in old(log) && old(log)[prevIndex].term == prevTerm))
      ensures if term < old(currentTerm) then View() == old(View()) else currentTerm == term == replyTerm && role == Follower
      ensures votedFor == if term > old(currentTerm) then NOBODY else old(votedFor)
      ensures !success ==> KeepsLog()
      ensures success ==> commitIndex == if commit > old(commitIndex) then Min(commit, LastIndex(log)) else old(commitIndex)
    {
      replyTerm, success, conflict := currentTerm, false, 0;
      if term < currentTerm {
        return;
      }
      if term > currentTerm {
        currentTerm, votedFor := term, NOBODY;
      }
      role := Follower;
      replyTerm := term;
      if prevIndex > 0 {
        var last := LastIndex(log);
        if last < prevIndex {
          conflict := last + 1;
          return;
        }
        if prevIndex !in log {
          conflict := 1;
          return;
        }
        if log[prevIndex].term != prevTerm {
          conflict := ConflictIndex(prevIndex);
          return;
        }
      }
      StoreNewEntries(entries);
      if commit > commitIndex {
        var newCommit, last := commit, LastIndex(log);
        if newCommit > last {
          newCommit := last;
        }
        commitIndex := newCommit;
        var _ := CollectApplyOps();
      }
      success := true;
    }

    // ---- replication ----

    /** The message replicateToPeer sends, with the term and commit index read before it took the lock. */
    method RequestFor(peer: NodeId, term: nat, commit: nat) returns (m: Message)
      requires StoredNext(View(), peer) >= 1
      ensures m == Request(View(), self, peer, term, commit)
      ensures var next := nextIndex[peer];
              && m == AppendReq(self, peer, term, next - 1, m.prevTerm, m.entries, commit)
              && m.prevTerm == (if next - 1 > 0 && next - 1 in log then log[next - 1].term else 0)
              && AreCopies(log, next, m.entries)
              && (next in log ==> m.entries != [])
    {
      var next := StoredNext(View(), peer);
      var prevIndex, prevTerm := next - 1, 0;
      if prevIndex > 0 && prevIndex in log {
        prevTerm := log[prevIndex].term;
      }
      var last := LastIndex(log);
      var entries: seq<LogEntry> := [];
      if next <= last {
        entries := LogEntries(next, last + 1);
      }
      m := AppendReq(self, peer, term, prevIndex, prevTerm, entries, commit);
    }

    method LogEntries(from: nat, to: nat) returns (entries: seq<LogEntry>)
      ensures entries == Batch(log, from, to, 0)
      ensures AreCopies(log, from, entries) && (entries != [] ==> from + |entries| <= to)
      ensures from < to && from in log ==> entries != []
    {
      entries := [];
      var i: nat, size: nat := from, 0;
      while i < to
        invariant Batching(log, from, to, entries, i, size)
        invariant i == from + |entries| && (entries != [] ==> i <= to)
        invariant AreCopies(log, from, entries)
      {
        if i !in log {
          break;
        }
        BatchGoesOn(log, from, to, entries, i, size);
        Copied(log, from, entries, log[i]);
        entries := entries + [log[i]];
        size := size + EntrySize(log[i]);
        if size > BATCH_SIZE {
          return;
        }
        i := i + 1;
      }
      BatchEnds(log, from, to, entries, i, size);
    }

    method HandleAppendReply(peer: NodeId, asked: nat, prevIndex: nat, count: nat, replyTerm: nat, success: bool)
      modifies this
      ensures View() == AppendReply(old(View()), self, peers, peer, asked, prevIndex, count, replyTerm, success)
      ensures replyTerm > asked ==>
                && role == Follower && KeepsLog() && unchanged(`nextIndex, `matchIndex)
                && (if replyTerm > old(currentTerm) then currentTerm == replyTerm && votedFor == NOBODY else unchanged(`currentTerm, `votedFor))
      ensures replyTerm <= asked && (old(role) != Leader || replyTerm != asked) ==> View() == old(View())
      ensures replyTerm == asked && old(role) == Leader ==>
                && unchanged(`role, `currentTerm, `votedFor, `log)
                && (success ==>
                      && nextIndex == old(nextIndex)[peer := prevIndex + count + 1]
                      && matchIndex == (if count > 0 then old(matchIndex)[peer := prevIndex + count] else old(matchIndex)))
                && (!success ==>
                      && KeepsLog() && unchanged(`matchIndex)
                      && nextIndex == (if peer in old(nextIndex) && old(nextIndex[peer]) > 1 then old(nextIndex)[peer := old(nextIndex[peer]) - 1]
                                       else old(nextIndex)))
    {
      if replyTerm > asked {
        StepDown(replyTerm);
        return;
      }
      if role != Leader || replyTerm != asked {
        return;
      }
      if success {
        Credit(peer, prevIndex, count);
        AdvanceCommitIndex();
      } else if StoredNext(View(), peer) > 1 {
        nextIndex := nextIndex[peer := StoredNext(View(), peer) - 1];
      }
    }

    /** The peer has stored what the request held. */
    method Credit(peer: NodeId, prevIndex: nat, count: nat)
      modifies `nextIndex, `matchIndex
      ensures nextIndex == old(nextIndex)[peer := prevIndex + count + 1]
      ensures matchIndex == if count > 0 then old(matchIndex)[peer := prevIndex + count] else old(matchIndex)
    {
      if count > 0 {
        nextIndex := nextIndex[peer := prevIndex + count + 1];
        matchIndex := matchIndex[peer := prevIndex + count];
      } else {
        nextIndex := nextIndex[peer := prevIndex + 1];
      }
    }

    /** This node, and every peer known to hold the index. */
    method CountHolders(index: nat) returns (count: nat)
      ensures count == 1 + |HoldersIn(View(), self, peers, index)|
    {
      count := 1;
      var rest, held := peers, {};
      while rest != {}
        invariant rest <= peers && count == 1 + |held|
        invariant held == set p | p in peers - rest && p != self && StoredMatch(View(), p) >= index
        decreases |rest|
      {
        var p :| p in rest;
        rest := rest - {p};
        if p != self && StoredMatch(View(), p) >= index {
          held := held + {p};
          count := count + 1;
        }
      }
      assert held == HoldersIn(View(), self, peers, index);
    }

    method AdvanceCommitIndex()
      modifies `commitIndex, `lastApplied, `handed
      ensures View() == CollectStore(AdvanceStore(old(View()), self, peers))
    {
      while commitIndex < LastIndex(log)
        invariant AdvanceStore(View(), self, peers) == AdvanceStore(old(View()), self, peers)
        invariant unchanged(`lastApplied) && unchanged(`handed)
        decreases LastIndex(log) - commitIndex
      {
        var next := commitIndex + 1;
        if next !in log {
          break;
        }
        if log[next].term != currentTerm {
          break;
        }
        var count := CountHolders(next);
        if count * 2 > |peers| {
          commitIndex := next;
        } else {
          break;
        }
      }
      var _ := CollectApplyOps();
    }
  }
}
