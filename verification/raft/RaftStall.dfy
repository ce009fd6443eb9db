/**
 Where the cluster stops.  A leader only commits the entry right behind its commit index, and only if
 that entry is of its own term, so the NoOp of a new leader commits no entry of an older term: it waits
 behind it for ever.  LeaderCommitsIff says when a leader can commit, StallLasts when no node ever again
 will, and ClusterCanStall that every cluster of several nodes can get there from its start.
 */
module RaftStall {
  import opened RaftTypes
  import opened RaftProtocol
  import opened RaftInvariant
  import opened RaftQuietSteps
  import opened RaftReplySteps
  import opened RaftSafety
  import opened RaftReach
  import opened RaftProgress

  // ---- one leader ----

  lemma {:induction false} AdvancesOwn(me: Server, i: NodeId, peers: set<NodeId>)
    requires me.commit <= |me.log|
    ensures AdvanceCommit(me, i, peers).commit <= |me.log|
    ensures forall k | me.commit <= k < AdvanceCommit(me, i, peers).commit :: me.log[k].term == me.term
    decreases |me.log| - me.commit
  {
    if me.commit < |me.log| && me.log[me.commit].term == me.term
       && (1 + |Holders(me, i, peers, me.commit + 1)|) * 2 > |peers| {
      AdvancesOwn(me.(commit := me.commit + 1), i, peers);
    }
  }

  /** What a reply commits beyond the commit index is of the leader's own term. */
  lemma ReplyCommitsOwn(me: Server, peers: set<NodeId>, m: Message)
    requires m.AppendResp? && me.commit <= |me.log|
    ensures var me' := OnAppendReply(me, m.dst, peers, m.src, m.asked, m.prevIndex, m.count, m.term, m.success);
            && me'.log == me.log && me.commit <= me'.commit <= |me.log|
            && (me'.commit > me.commit ==> me.role == Leader && me'.term == me.term)
            && forall k | me.commit <= k < me'.commit :: me.log[k].term == me.term
  {
    AdvancesOwn(Credited(me, m), m.dst, peers);
    AdvanceCommitBound(Credited(me, m), m.dst, peers);
  }

  /** The leader's next entry to commit is of an older term. */
  ghost predicate Waits(me: Server) {
    me.role == Leader && me.commit < |me.log| && me.log[me.commit].term != me.term
  }

  lemma WaitsOn(peers: set<NodeId>, s: State, s': State, step: Step, i: NodeId)
    requires NextStep(peers, s, s', step) && |peers| > 1 && i in s.servers && i in s'.servers && Waits(s.servers[i])
    requires s'.servers[i].role == Leader && s'.servers[i].term == s.servers[i].term
    ensures s'.servers[i].commit == s.servers[i].commit && s.servers[i].log <= s'.servers[i].log
    ensures Waits(s'.servers[i])
  {
    match step
    case ReceiveAppendResp(m) =>
      if m.dst == i {
        ReplyCommitsOwn(s.servers[i], peers, m);
      }
    case _ =>
  }

  lemma {:induction false} AdvanceRole(me: Server, i: NodeId, peers: set<NodeId>)
    ensures AdvanceCommit(me, i, peers).role == me.role && AdvanceCommit(me, i, peers).term == me.term
    decreases |me.log| - me.commit
  {
    if me.commit < |me.log| && me.log[me.commit].term == me.term
       && (1 + |Holders(me, i, peers, me.commit + 1)|) * 2 > |peers| {
      AdvanceRole(me.(commit := me.commit + 1), i, peers);
    }
  }

  lemma ReplyRole(me: Server, peers: set<NodeId>, m: Message)
    requires m.AppendResp?
    ensures var me' := OnAppendReply(me, m.dst, peers, m.src, m.asked, m.prevIndex, m.count, m.term, m.success);
            me'.role == Leader ==> me.role == Leader
  {
    AdvanceRole(Credited(me, m), m.dst, peers);
  }

  lemma TakesOfficeAsCandidate(peers: set<NodeId>, s: State, s': State, step: Step, i: NodeId)
    requires NextStep(peers, s, s', step) && i in s.servers && i in s'.servers
    requires s.servers[i].role != Leader && s'.servers[i].role == Leader
    ensures s.servers[i].role == Candidate
  {
    match step
    case ReceiveAppendResp(m) =>
      ReplyRole(s.servers[m.dst], peers, m);
    case _ =>
  }

  /** A node that leads in a term now led in it all the time since it took office. */
  lemma LedBefore(peers: set<NodeId>, s: State, s': State, i: NodeId, t: nat)
    requires Inv(peers, s) && Next(peers, s, s') && i in s.servers && i in s'.servers
    requires t in s.h.leader && s.h.leader[t] == i
    requires s.servers[i].term == t && s'.servers[i].term == t && s'.servers[i].role == Leader
    ensures s.servers[i].role == Leader
  {
    assert Elected(peers, s, t);
    if s.servers[i].role != Leader {
      var step :| NextStep(peers, s, s', step);
      TakesOfficeAsCandidate(peers, s, s', step, i);
    }
  }

  lemma {:induction false} LeadsSince(peers: set<NodeId>, run: seq<State>, a: nat, k: nat, b: nat, i: NodeId)
    requires Run(peers, run) && a <= k <= b < |run| && i in peers
    requires i in run[a].servers && i in run[b].servers && run[a].servers[i].term == run[b].servers[i].term
    requires run[a].servers[i].role == Leader && run[b].servers[i].role == Leader
    ensures i in run[k].servers && run[k].servers[i].role == Leader && run[k].servers[i].term == run[a].servers[i].term
    decreases b - k
  {
    TermsGrow(peers, run, a, k, i);
    TermsGrow(peers, run, k, b, i);
    if k < b {
      LeadsSince(peers, run, a, k + 1, b, i);
      RunInv(peers, run, a);
      LeaderLeads(peers, run[a], i);
      RunLater(peers, run, a, k);
      RunInv(peers, run, k);
      assert Next(peers, run[k], run[k + 1]);
      LedBefore(peers, run[k], run[k + 1], i, run[a].servers[i].term);
    }
  }

  /** As long as it leads, a leader that waits behind an entry of an older term commits nothing. */
  lemma {:induction false} LeaderWaits(peers: set<NodeId>, run: seq<State>, a: nat, b: nat, i: NodeId)
    requires Run(peers, run) && a <= b < |run| && |peers| > 1 && i in peers
    requires i in run[a].servers && i in run[b].servers && run[a].servers[i].term == run[b].servers[i].term
    requires run[b].servers[i].role == Leader && Waits(run[a].servers[i])
    ensures run[b].servers[i].commit == run[a].servers[i].commit && Waits(run[b].servers[i])
    decreases b
  {
    if a < b {
      LeadsSince(peers, run, a, b - 1, b, i);
      LeaderWaits(peers, run, a, b - 1, i);
      var k := b - 1;
      assert Next(peers, run[k], run[k + 1]);
      var step :| NextStep(peers, run[k], run[k + 1], step);
      WaitsOn(peers, run[k], run[b], step, i);
    }
  }

  /** In a longer run the node, leading in the same term, has committed more. */
  ghost predicate CommitsMore(peers: set<NodeId>, run: seq<State>, run': seq<State>, i: NodeId) {
    && Run(peers, run') && |run| > 0 && run <= run'
    && var s, s' := run[|run| - 1], run'[|run'| - 1];
    && i in s.servers && i in s'.servers
    && s'.servers[i].role == Leader && s'.servers[i].term == s.servers[i].term
    && s'.servers[i].commit > s.servers[i].commit
  }

  lemma OwnFromThere(peers: set<NodeId>, s: State, i: NodeId)
    requires Inv(peers, s) && i in s.servers
    requires var me := s.servers[i]; me.commit < |me.log| && me.log[me.commit].term == me.term
    ensures OwnFrom(s.servers[i])
  {
    var me := s.servers[i];
    forall k | me.commit <= k < |me.log| ensures me.log[k].term == me.term {
      TermsSorted(s, me.log, me.commit, k);
    }
  }

  /** A leader that a majority of no newer term can hear commits more while it leads, in some longer run, exactly
      when its next entry to commit is of its own term. */
  lemma LeaderCommitsIff(peers: set<NodeId>, run: seq<State>, q: set<NodeId>, i: NodeId)
    requires Run(peers, run) && |peers| > 1 && Majority(q, peers) && i in q && run[|run| - 1].servers.Keys == peers
    requires var s := run[|run| - 1];
             && s.servers[i].role == Leader && s.servers[i].commit < |s.servers[i].log|
             && forall p | p in q :: s.servers[p].term <= s.servers[i].term
    ensures var me := run[|run| - 1].servers[i];
            (exists run' :: CommitsMore(peers, run, run', i)) <==> me.log[me.commit].term == me.term
  {
    var s := run[|run| - 1];
    var me := s.servers[i];
    if me.log[me.commit].term == me.term {
      RunInv(peers, run, |run| - 1);
      OwnFromThere(peers, s, i);
      var run' := LeaderCommits(peers, run, q, i);
    } else if run' :| CommitsMore(peers, run, run', i) {
      assert run'[|run| - 1] == s;
      LeaderWaits(peers, run', |run| - 1, |run'| - 1, i);
    }
  }

  lemma LeaderCommits(peers: set<NodeId>, run: seq<State>, q: set<NodeId>, i: NodeId) returns (run': seq<State>)
    requires Run(peers, run) && Majority(q, peers) && i in q && run[|run| - 1].servers.Keys == peers
    requires var s := run[|run| - 1];
             && s.servers[i].role == Leader && OwnFrom(s.servers[i])
             && forall p | p in q :: s.servers[p].term <= s.servers[i].term
    ensures CommitsMore(peers, run, run', i)
  {
    var s := run[|run| - 1];
    RunArises(peers, run);
    ArisesCommit(peers, s, i);
    var s' := LeaderDrives(peers, s, i, q - {i}, LogNoOp, []);
    ArisesThen(peers, s, s');
    ArisesCommit(peers, s', i);
    run' := ReachRun(peers, run, s');
    assert i in (q - {i}) + {i};
  }

  // ---- the whole cluster ----

  /**
   Position c holds an entry of term t that a majority stored in term t, nobody's commit index covers
   it, no request tells of it, and the leader of term t is gone.
   */
  ghost predicate Stalled(peers: set<NodeId>, s: State, t: nat, c: nat) {
    && |peers| > 1
    && Committed(peers, s, t, c + 1)
    && (forall i | i in s.servers :: s.servers[i].commit <= c && !(s.servers[i].role == Leader && s.servers[i].term == t))
    && (forall m | m in s.sent && m.AppendReq? :: m.commit <= c)
  }

  /** Whoever commits position c holds the entry of term t there. */
  lemma CommitsThatEntry(peers: set<NodeId>, s: State, i: NodeId, t: nat, c: nat)
    requires Inv(peers, s) && Committed(peers, s, t, c + 1) && i in s.servers && s.servers[i].commit > c
    ensures c < |s.servers[i].log| && s.servers[i].log[c].term == t
  {
    var me, l := s.servers[i], s.h.leaderLog[t];
    assert CommitsAt(peers, s, me);
    assert CoveredBy(peers, s, l, c + 1, t, c + 1);
    assert CommitOk(peers, s, l, c + 1, t) && CommitOk(peers, s, me.log, me.commit, me.term);
    CoveredAgree(peers, s, me.log, me.commit, l, c + 1, c);
  }

  /** A step that takes a commit index past c, which no request does, takes it past an entry of the leader's own term. */
  lemma PassesOwn(peers: set<NodeId>, s: State, s': State, step: Step, i: NodeId, c: nat)
    requires NextStep(peers, s, s', step) && |peers| > 1 && i in s.servers && i in s'.servers
    requires s.servers[i].commit <= c && s.servers[i].commit <= |s.servers[i].log|
    requires forall m | m in s.sent && m.AppendReq? :: m.commit <= c
    requires s'.servers[i].commit > c
    ensures c < |s'.servers[i].log| && s'.servers[i].log[c].term == s'.servers[i].term
    ensures s.servers[i].role == Leader && s.servers[i].term == s'.servers[i].term
  {
    match step
    case ReceiveAppendResp(m) =>
      if m.dst == i {
        ReplyCommitsOwn(s.servers[i], peers, m);
      }
    case _ =>
  }

  lemma NodesStall(peers: set<NodeId>, s: State, s': State, step: Step, i: NodeId, t: nat, c: nat)
    requires Inv(peers, s') && NextStep(peers, s, s', step) && Stalled(peers, s, t, c)
    requires Committed(peers, s', t, c + 1) && i in s.servers && i in s'.servers
    requires s.servers[i].commit <= |s.servers[i].log|
    ensures s'.servers[i].commit <= c
  {
    if s'.servers[i].commit > c {
      PassesOwn(peers, s, s', step, i, c);
      CommitsThatEntry(peers, s', i, t, c);
    }
  }

  lemma NoNewLeader(peers: set<NodeId>, s: State, s': State, i: NodeId, t: nat)
    requires Inv(peers, s) && Inv(peers, s') && Next(peers, s, s') && Later(s, s') && i in s.servers && i in s'.servers
    requires t in s.h.leader && !(s.servers[i].role == Leader && s.servers[i].term == t)
    ensures !(s'.servers[i].role == Leader && s'.servers[i].term == t)
  {
    if s'.servers[i].role == Leader && s'.servers[i].term == t {
      LeaderLeads(peers, s', i);
      assert s.h.leader[t] == i;
      assert Elected(peers, s, t);
      assert s.servers[i].term == t;
      LedBefore(peers, s, s', i, t);
    }
  }

  lemma RequestsStall(peers: set<NodeId>, s: State, s': State, step: Step, m: Message, t: nat, c: nat)
    requires NextStep(peers, s, s', step) && Stalled(peers, s, t, c) && m in s'.sent && m.AppendReq?
    ensures m.commit <= c
  {
  }

  lemma CommitInLog(peers: set<NodeId>, s: State, i: NodeId)
    requires Inv(peers, s) && i in s.servers
    ensures s.servers[i].commit <= |s.servers[i].log| && |s.servers[i].handed| == s.servers[i].commit
  {
    assert CommitsAt(peers, s, s.servers[i]);
  }

  lemma StallStep(peers: set<NodeId>, s: State, s': State, t: nat, c: nat)
    requires Inv(peers, s) && Next(peers, s, s') && Stalled(peers, s, t, c)
    ensures Stalled(peers, s', t, c)
  {
    NextInv(peers, s, s');
    CommittedStable(peers, s, s', t, c + 1);
    var step :| NextStep(peers, s, s', step);
    forall i | i in s'.servers ensures s'.servers[i].commit <= c && !(s'.servers[i].role == Leader && s'.servers[i].term == t) {
      CommitInLog(peers, s, i);
      NodesStall(peers, s, s', step, i, t, c);
      NoNewLeader(peers, s, s', i, t);
    }
    forall m | m in s'.sent && m.AppendReq? ensures m.commit <= c {
      RequestsStall(peers, s, s', step, m, t, c);
    }
  }

  lemma StalledNext(peers: set<NodeId>, run: seq<State>, k: nat, t: nat, c: nat)
    requires Run(peers, run) && k + 1 < |run| && Stalled(peers, run[k], t, c)
    ensures Stalled(peers, run[k + 1], t, c)
  {
    RunInv(peers, run, k);
    assert Next(peers, run[k], run[k + 1]);
    StallStep(peers, run[k], run[k + 1], t, c);
  }

  lemma {:induction false} StalledOn(peers: set<NodeId>, run: seq<State>, a: nat, b: nat, t: nat, c: nat)
    requires Run(peers, run) && a <= b < |run| && Stalled(peers, run[a], t, c)
    ensures Stalled(peers, run[b], t, c)
    decreases b
  {
    if a < b {
      StalledOn(peers, run, a, b - 1, t, c);
      StalledNext(peers, run, b - 1, t, c);
    }
  }

  /** A stalled cluster never again hands out anything from position c on. */
  lemma StallLasts(peers: set<NodeId>, run: seq<State>, a: nat, b: nat, t: nat, c: nat)
    requires Run(peers, run) && a <= b < |run| && Stalled(peers, run[a], t, c)
    ensures forall i | i in run[b].servers :: |run[b].servers[i].handed| <= c
  {
    StalledOn(peers, run, a, b, t, c);
    RunInv(peers, run, b);
    forall i | i in run[b].servers ensures |run[b].servers[i].handed| <= c {
      CommitInLog(peers, run[b], i);
    }
  }

  // ---- getting there ----

  /** The answer that acknowledges the whole log is on the way. */
  ghost predicate Answered(s: State, p: NodeId, i: NodeId, t: nat, last: nat) {
    exists prev: nat, count: nat :: prev + count == last && AppendResp(p, i, t, prev, count, t, true) in s.sent
  }

  /** From s on, the leader has sent these nodes its log, and has not heard of it. */
  ghost predicate Stored(peers: set<NodeId>, s: State, s': State, i: NodeId, done: set<NodeId>) {
    && i in s.servers && s'.servers.Keys == s.servers.Keys && done <= peers - {i} && peers == s.servers.Keys
    && var me, me' := s.servers[i], s'.servers[i];
    && me' == me.(nextIndex := me'.nextIndex)
    && (forall p {:trigger s'.servers[p]} | p in s.servers :: s'.servers[p].commit == s.servers[p].commit)
    && (forall p {:trigger Answered(s', p, i, me.term, |me.log|)} | p in done :: Answered(s', p, i, me.term, |me.log|))
    && (forall p {:trigger PeerWaits(me, me', s.servers[p], s'.servers[p], p)} | p in s.servers && p != i && p !in done ::
          PeerWaits(me, me', s.servers[p], s'.servers[p], p))
  }

  lemma StoreOne(peers: set<NodeId>, s: State, mid: State, i: NodeId, done: set<NodeId>, p: NodeId) returns (s': State)
    requires CanServe(peers, s, i, done + {p}) && p !in done && Stored(peers, s, mid, i, done)
    requires Matches(mid.servers[i].log, mid.servers[p].log)
    ensures CanReach(peers, mid, s') && SendsWith(mid, s', 0) && Stored(peers, s, s', i, done + {p})
  {
    assert CanSend(peers, s, i, p) && PeerWaits(s.servers[i], mid.servers[i], s.servers[p], mid.servers[p], p);
    var prev: nat;
    s', prev := Brings(peers, mid, i, p);
    StoredMore(peers, s, mid, s', i, done, p, prev);
  }

  lemma StoredMore(peers: set<NodeId>, s: State, mid: State, s': State, i: NodeId, done: set<NodeId>, p: NodeId, prev: nat)
    requires p !in done && Stored(peers, s, mid, i, done) && Brought(mid, s', i, p) && mid.sent <= s'.sent
    requires prev < |s.servers[i].log|
    requires var t := s.servers[i].term; AppendResp(p, i, t, prev, |s.servers[i].log| - prev, t, true) in s'.sent
    ensures Stored(peers, s, s', i, done + {p})
  {
    var me, me' := s.servers[i], s'.servers[i];
    forall x | x in s.servers && x != i && x !in done + {p} ensures PeerWaits(me, me', s.servers[x], s'.servers[x], x) {
      assert PeerWaits(me, mid.servers[i], s.servers[x], mid.servers[x], x);
    }
    forall x | x in done + {p} ensures Answered(s', x, i, me.term, |me.log|) {
      if x != p {
        assert Answered(mid, x, i, me.term, |me.log|);
      }
    }
    forall x | x in s.servers ensures s'.servers[x].commit == s.servers[x].commit {
      assert mid.servers[x].commit == s.servers[x].commit;
    }
  }

  lemma {:induction false} StoreAll(peers: set<NodeId>, s: State, i: NodeId, others: set<NodeId>) returns (s': State)
    requires Arises(peers, s) && CanServe(peers, s, i, others)
    ensures CanReach(peers, s, s') && SendsWith(s, s', 0) && Stored(peers, s, s', i, others)
    decreases others
  {
    if others == {} {
      s' := s;
      ReachSelf(peers, s);
    } else {
      var p :| p in others;
      assert (others - {p}) + {p} == others;
      var mid := StoreAll(peers, s, i, others - {p});
      ArisesThen(peers, s, mid);
      ArisesSound(peers, mid);
      s' := StoreOne(peers, s, mid, i, others - {p}, p);
      ReachTrans(peers, s, mid, s');
      SendsTrans(s, mid, s', 0);
    }
  }

  /** What a majority has stored in the leader's term is committed, whoever knows. */
  lemma AnsweredIsCommitted(peers: set<NodeId>, s: State, i: NodeId, others: set<NodeId>, t: nat)
    requires Inv(peers, s) && i in s.servers && s.servers[i].role == Leader && s.servers[i].term == t
    requires var log := s.servers[i].log; log != [] && log[|log| - 1].term == t
    requires others <= peers - {i} && (1 + |others|) * 2 > |peers|
    requires forall p | p in others :: Answered(s, p, i, t, |s.servers[i].log|)
    ensures Committed(peers, s, t, |s.servers[i].log|)
  {
    var last := |s.servers[i].log|;
    LeaderLeads(peers, s, i);
    forall p | p in others + {i} ensures Acked(s.h, p, t, last) {
      if p != i {
        assert Answered(s, p, i, t, last);
        var prev: nat, count: nat :| prev + count == last && AppendResp(p, i, t, prev, count, t, true) in s.sent;
        assert ReplyOk(s, AppendResp(p, i, t, prev, count, t, true));
      }
    }
    assert Majority(others + {i}, peers) && Accepters(s.h, others + {i}, t, last);
  }

  /** No commit index has moved, and no request tells of one. */
  ghost predicate NothingCommitted(s: State) {
    && (forall i | i in s.servers :: s.servers[i].commit == 0)
    && (forall m | m in s.sent && m.AppendReq? :: m.commit == 0)
  }

  lemma FirstLeader(peers: set<NodeId>, start: State, i: NodeId, others: set<NodeId>) returns (s: State, t: nat)
    requires Init(peers, start) && |peers| > 1 && i in peers && others <= peers - {i} && (1 + |others|) * 2 > |peers|
    ensures CanReach(peers, start, s) && CanServe(peers, s, i, others) && NothingCommitted(s)
    ensures s.servers[i].term == t && s.servers[i].log == [LogEntry(1, t, LogNoOp, [])]
  {
    var elected: State;
    elected, t := MajorityElects(peers, start, i, others);
    s := Appends(peers, elected, i, LogNoOp, []);
    ReachTrans(peers, start, elected, s);
    AppendServes(peers, elected, s, i, others, LogNoOp, []);
  }

  lemma Restarts(peers: set<NodeId>, s: State, i: NodeId) returns (s': State)
    requires i in s.servers
    ensures CanReach(peers, s, s') && s' == s.(servers := s.servers[i := OnRestart(s.servers[i])])
  {
    s' := s.(servers := s.servers[i := OnRestart(s.servers[i])]);
    assert DoRestart(s, s', i);
    ReachSelf(peers, s);
    ReachNext(peers, s, s, s', Restart(i));
  }

  /** Once its leader restarts, a cluster that has stored an entry without committing any is stalled. */
  lemma RestartStalls(peers: set<NodeId>, s: State, s': State, i: NodeId, t: nat)
    requires Inv(peers, s) && |peers| > 1 && NothingCommitted(s) && Committed(peers, s, t, 1)
    requires i in s.servers && s.servers[i].role == Leader && s.servers[i].term == t
    requires s' == s.(servers := s.servers[i := OnRestart(s.servers[i])])
    ensures Stalled(peers, s', t, 0)
  {
    LeaderLeads(peers, s, i);
    forall p | p in s'.servers ensures s'.servers[p].commit <= 0 && !(s'.servers[p].role == Leader && s'.servers[p].term == t) {
      if p != i && s.servers[p].role == Leader {
        LeaderLeads(peers, s, p);
      }
    }
    var q :| Majority(q, peers) && Accepters(s.h, q, t, 1);
    assert Accepters(s'.h, q, t, 1);
  }

  lemma StoredNothingCommitted(peers: set<NodeId>, s: State, s': State, i: NodeId, others: set<NodeId>)
    requires Stored(peers, s, s', i, others) && SendsWith(s, s', 0) && NothingCommitted(s)
    ensures NothingCommitted(s')
  {
  }

  ghost predicate NothingHandedOut(s: State) {
    forall i | i in s.servers :: s.servers[i].handed == []
  }

  lemma StallAtStart(peers: set<NodeId>, run: seq<State>, run': seq<State>, t: nat)
    requires Run(peers, run) && Run(peers, run') && run <= run' && Stalled(peers, run[|run| - 1], t, 0)
    ensures NothingHandedOut(run'[|run'| - 1])
  {
    assert run'[|run| - 1] == run[|run| - 1];
    StallLasts(peers, run', |run| - 1, |run'| - 1, t, 0);
  }

  lemma ReachesStall(peers: set<NodeId>, start: State, others: set<NodeId>, i: NodeId) returns (s: State, t: nat)
    requires Init(peers, start) && |peers| > 1 && i in peers && others <= peers - {i} && (1 + |others|) * 2 > |peers|
    ensures CanReach(peers, start, s) && Stalled(peers, s, t, 0)
  {
    ReachSelf(peers, start);
    var s1: State;
    s1, t := FirstLeader(peers, start, i, others);
    assert Arises(peers, s1);
    var s2 := StoreAll(peers, s1, i, others);
    ReachTrans(peers, start, s1, s2);
    StoredNothingCommitted(peers, s1, s2, i, others);
    StoredIsCommitted(peers, s1, s2, i, others, t);
    s := Restarts(peers, s2, i);
    ReachTrans(peers, start, s2, s);
    StalledAfterRestart(peers, start, s2, s, i, t);
  }

  lemma StoredIsCommitted(peers: set<NodeId>, s: State, s': State, i: NodeId, others: set<NodeId>, t: nat)
    requires Arises(peers, s') && Stored(peers, s, s', i, others) && (1 + |others|) * 2 > |peers|
    requires s.servers[i].role == Leader && s.servers[i].term == t && s.servers[i].log == [LogEntry(1, t, LogNoOp, [])]
    ensures Committed(peers, s', t, 1)
  {
    ArisesInv(peers, s');
    forall p | p in others ensures Answered(s', p, i, t, 1) {
    }
    AnsweredIsCommitted(peers, s', i, others, t);
  }

  lemma StalledAfterRestart(peers: set<NodeId>, start: State, s: State, s': State, i: NodeId, t: nat)
    requires Init(peers, start) && CanReach(peers, start, s) && |peers| > 1 && NothingCommitted(s) && Committed(peers, s, t, 1)
    requires i in s.servers && s.servers[i].role == Leader && s.servers[i].term == t
    requires s' == s.(servers := s.servers[i := OnRestart(s.servers[i])])
    ensures Stalled(peers, s', t, 0)
  {
    InitInv(peers, start);
    ReachKeeps(peers, start, s);
    RestartStalls(peers, s, s', i, t);
  }

  /** From its start, every cluster of several nodes can come into a state in which a majority has stored the leader's
      entry and no node will ever hand out anything. */
  lemma ClusterCanStall(peers: set<NodeId>, start: State, q: set<NodeId>, i: NodeId) returns (run: seq<State>, t: nat)
    requires Init(peers, start) && |peers| > 1 && Majority(q, peers) && i in q
    ensures Run(peers, run) && run[0] == start && Stalled(peers, run[|run| - 1], t, 0)
    ensures forall run': seq<State> | Run(peers, run') && run <= run' :: NothingHandedOut(run'[|run'| - 1])
  {
    assert q == (q - {i}) + {i};
    var s: State;
    s, t := ReachesStall(peers, start, q - {i}, i);
    run := ReachRun(peers, [start], s);
    forall run': seq<State> | Run(peers, run') && run <= run' ensures NothingHandedOut(run'[|run'| - 1]) {
      StallAtStart(peers, run, run', t);
    }
  }
}
