/**
 Continuations of a run: what the cluster can still reach, and how an election goes through when a
 majority takes part.
 */
module RaftReach {
  import opened RaftTypes
  import opened RaftProtocol
  import opened RaftInvariant
  import opened RaftSafety

  ghost predicate IsPath(peers: set<NodeId>, path: seq<State>, s: State, s': State) {
    && |path| > 0 && path[0] == s && path[|path| - 1] == s'
    && forall k {:trigger Next(peers, path[k], path[k + 1])} | 0 <= k < |path| - 1 :: Next(peers, path[k], path[k + 1])
  }

  /** Some finite number of steps leads from s to s'. */
  ghost predicate CanReach(peers: set<NodeId>, s: State, s': State) {
    exists path :: IsPath(peers, path, s, s')
  }

  lemma ReachSelf(peers: set<NodeId>, s: State)
    ensures CanReach(peers, s, s)
  {
    assert IsPath(peers, [s], s, s);
  }

  lemma ReachNext(peers: set<NodeId>, s: State, mid: State, s': State, step: Step)
    requires CanReach(peers, s, mid) && NextStep(peers, mid, s', step)
    ensures CanReach(peers, s, s')
  {
    var path :| IsPath(peers, path, s, mid);
    var longer := path + [s'];
    assert Next(peers, mid, s');
    forall k | 0 <= k < |longer| - 1 ensures Next(peers, longer[k], longer[k + 1]) {
      if k < |path| - 1 {
        assert Next(peers, path[k], path[k + 1]);
      }
    }
    assert IsPath(peers, longer, s, s');
  }

  lemma ReachTrans(peers: set<NodeId>, s: State, mid: State, s': State)
    requires CanReach(peers, s, mid) && CanReach(peers, mid, s')
    ensures CanReach(peers, s, s')
  {
    var a :| IsPath(peers, a, s, mid);
    var b :| IsPath(peers, b, mid, s');
    var both := a + b[1..];
    forall k | 0 <= k < |both| - 1 ensures Next(peers, both[k], both[k + 1]) {
      if k < |a| - 1 {
        assert Next(peers, a[k], a[k + 1]);
      } else {
        var j := k - (|a| - 1);
        assert both[k] == b[j] && both[k + 1] == b[j + 1];
        assert Next(peers, b[j], b[j + 1]);
      }
    }
    assert IsPath(peers, both, s, s');
  }

  /** What is reached from the end of a run is the end of a longer run. */
  lemma ReachRun(peers: set<NodeId>, run: seq<State>, s': State) returns (run': seq<State>)
    requires Run(peers, run) && CanReach(peers, run[|run| - 1], s')
    ensures Run(peers, run') && run <= run' && run'[|run'| - 1] == s'
  {
    var path :| IsPath(peers, path, run[|run| - 1], s');
    run' := run + path[1..];
    forall k | 0 <= k < |run'| - 1 ensures Next(peers, run'[k], run'[k + 1]) {
      if k < |run| - 1 {
        assert Next(peers, run[k], run[k + 1]);
      } else {
        var j := k - (|run| - 1);
        assert run'[k] == path[j] && run'[k + 1] == path[j + 1];
        assert Next(peers, path[j], path[j + 1]);
      }
    }
  }

  lemma RunReaches(peers: set<NodeId>, run: seq<State>, a: nat, b: nat)
    requires Run(peers, run) && a <= b < |run|
    ensures CanReach(peers, run[a], run[b])
  {
    var path := run[a..b + 1];
    forall k | 0 <= k < |path| - 1 ensures Next(peers, path[k], path[k + 1]) {
      var j := a + k;
      assert path[k] == run[j] && path[k + 1] == run[j + 1];
      assert Next(peers, run[j], run[j + 1]);
    }
    assert IsPath(peers, path, run[a], run[b]);
  }

  lemma {:induction false} PathKeeps(peers: set<NodeId>, path: seq<State>, k: nat)
    requires |path| > 0 && Inv(peers, path[0]) && k < |path|
    requires forall j {:trigger Next(peers, path[j], path[j + 1])} | 0 <= j < |path| - 1 :: Next(peers, path[j], path[j + 1])
    ensures Inv(peers, path[k]) && Later(path[0], path[k]) && HandsOut(path[0], path[k])
    decreases k
  {
    if k == 0 {
      LaterRefl(path[0]);
    } else {
      var j := k - 1;
      PathKeeps(peers, path, j);
      assert Next(peers, path[j], path[j + 1]);
      NextInv(peers, path[j], path[k]);
      OneHands(peers, path[j], path[k]);
      LaterTrans(path[0], path[j], path[k]);
    }
  }

  lemma ReachKeeps(peers: set<NodeId>, s: State, s': State)
    requires Inv(peers, s) && CanReach(peers, s, s')
    ensures Inv(peers, s') && Later(s, s') && HandsOut(s, s')
  {
    var path :| IsPath(peers, path, s, s');
    PathKeeps(peers, path, |path| - 1);
  }

  // ---- asking for pre-votes ----

  /** Messages are added, but no request to append. */
  ghost predicate OnlyVotes(s: State, s': State) {
    && s.sent <= s'.sent
    && forall m | m in s'.sent && m.AppendReq? :: m in s.sent
  }

  lemma VotesTrans(s: State, mid: State, s': State)
    requires OnlyVotes(s, mid) && OnlyVotes(mid, s')
    ensures OnlyVotes(s, s')
  {
  }

  /** The node asks a peer for a pre-vote and the peer answers with its own term. */
  lemma AskPeer(peers: set<NodeId>, s: State, i: NodeId, p: NodeId) returns (s': State)
    requires i in s.servers && p in s.servers && p in peers && i != p
    ensures CanReach(peers, s, s') && OnlyVotes(s, s') && s'.servers == s.servers
    ensures var me, you := s.servers[i], s.servers[p];
            VoteResp(p, i, me.term + 1, true, you.term, me.term + 1 >= you.term && UpToDate(LastTerm(me.log), |me.log|, you.log)) in s'.sent
  {
    var me, you := s.servers[i], s.servers[p];
    var ask := VoteReq(i, p, me.term + 1, |me.log|, LastTerm(me.log), true);
    var s1 := s.(sent := s.sent + set j | j in peers && j != i :: VoteReq(i, j, me.term + 1, |me.log|, LastTerm(me.log), true));
    ReachSelf(peers, s);
    ReachNext(peers, s, s, s1, Timeout(i));
    var (you', term, granted) := OnVoteRequest(you, i, ask.term, ask.lastIndex, ask.lastTerm, true);
    s' := s1.(servers := s1.servers[p := you'], sent := s1.sent + {VoteResp(p, i, ask.term, true, term, granted)});
    assert ask in s1.sent;
    assert DoReceiveVoteReq(s1, s', ask);
    ReachNext(peers, s, s1, s', ReceiveVoteReq(ask));
    assert s1.servers[p := you] == s.servers;
  }

  /** The node hears of a peer's term. */
  lemma HearFrom(peers: set<NodeId>, s: State, i: NodeId, p: NodeId) returns (s': State)
    requires i in s.servers && p in s.servers && p in peers && i != p
    ensures CanReach(peers, s, s') && OnlyVotes(s, s')
    ensures s'.servers == s.servers[i := AdoptTerm(s.servers[i], s.servers[p].term)]
  {
    var mid := AskPeer(peers, s, i, p);
    var me, you := s.servers[i], s.servers[p];
    var reply := VoteResp(p, i, me.term + 1, true, you.term, me.term + 1 >= you.term && UpToDate(LastTerm(me.log), |me.log|, you.log));
    s' := mid.(servers := mid.servers[i := AdoptTerm(me, reply.term)]);
    assert DoReceiveVoteResp(mid, s', reply);
    ReachNext(peers, s, mid, s', ReceiveVoteResp(reply));
  }

  /** Only its term, role and vote change, and the term does not go back. */
  ghost predicate HeardOf(me: Server, me': Server) {
    && me' == me.(term := me'.term, role := me'.role, votedFor := me'.votedFor)
    && me.term <= me'.term
  }

  lemma {:induction false} HearFromAll(peers: set<NodeId>, s: State, i: NodeId, others: set<NodeId>) returns (s': State)
    requires i in s.servers && others <= peers - {i} && peers == s.servers.Keys
    ensures CanReach(peers, s, s') && OnlyVotes(s, s')
    ensures i in s'.servers && s'.servers == s.servers[i := s'.servers[i]] && HeardOf(s.servers[i], s'.servers[i])
    ensures forall p | p in others :: s.servers[p].term <= s'.servers[i].term
    decreases others
  {
    if others == {} {
      s' := s;
      ReachSelf(peers, s);
    } else {
      var p :| p in others;
      var mid := HearFromAll(peers, s, i, others - {p});
      s' := HearFrom(peers, mid, i, p);
      ReachTrans(peers, s, mid, s');
      VotesTrans(s, mid, s');
    }
  }

  /** A peer that is not ahead in term or log grants the pre-vote. */
  ghost predicate Supports(s: State, i: NodeId, p: NodeId) {
    && i in s.servers && p in s.servers
    && s.servers[p].term <= s.servers[i].term
    && UpToDate(LastTerm(s.servers[i].log), |s.servers[i].log|, s.servers[p].log)
  }

  ghost predicate PreVoted(s: State, i: NodeId, p: NodeId) {
    exists asked, term :: VoteResp(p, i, asked, true, term, true) in s.sent
  }

  lemma {:induction false} AskAll(peers: set<NodeId>, s: State, i: NodeId, others: set<NodeId>) returns (s': State)
    requires i in s.servers && others <= peers - {i} && peers == s.servers.Keys
    requires forall p | p in others :: Supports(s, i, p)
    ensures CanReach(peers, s, s') && OnlyVotes(s, s') && s'.servers == s.servers
    ensures forall p | p in others :: PreVoted(s', i, p)
    decreases others
  {
    if others == {} {
      s' := s;
      ReachSelf(peers, s);
    } else {
      var p :| p in others;
      var mid := AskAll(peers, s, i, others - {p});
      assert Supports(s, i, p);
      s' := AskPeer(peers, mid, i, p);
      ReachTrans(peers, s, mid, s');
      VotesTrans(s, mid, s');
      forall x | x in others ensures PreVoted(s', i, x) {
        if x != p {
          assert PreVoted(mid, i, x);
        }
      }
    }
  }

  // ---- the election ----

  /** The node after it voted for i in term t. */
  function VotedFor(you: Server, i: NodeId, t: nat): Server {
    you.(term := t, votedFor := i, role := Follower)
  }

  /** The servers once these nodes have voted for i in term t. */
  function AllVoted(servers: map<NodeId, Server>, others: set<NodeId>, i: NodeId, t: nat): map<NodeId, Server> {
    map p | p in servers :: if p in others then VotedFor(servers[p], i, t) else servers[p]
  }

  ghost predicate AsksVotes(peers: set<NodeId>, s: State, i: NodeId) {
    && i in s.servers
    && forall j | j in peers && j != i ::
         VoteReq(i, j, s.servers[i].term, |s.servers[i].log|, LastTerm(s.servers[i].log), false) in s.sent
  }

  lemma VoteOf(peers: set<NodeId>, s: State, i: NodeId, p: NodeId) returns (s': State)
    requires AsksVotes(peers, s, i) && p in s.servers && p in peers && p != i
    requires s.servers[p].term < s.servers[i].term
    requires UpToDate(LastTerm(s.servers[i].log), |s.servers[i].log|, s.servers[p].log)
    ensures CanReach(peers, s, s') && OnlyVotes(s, s')
    ensures var t := s.servers[i].term;
            s'.servers == s.servers[p := VotedFor(s.servers[p], i, t)] && VoteResp(p, i, t, false, t, true) in s'.sent
  {
    var me, you := s.servers[i], s.servers[p];
    var ask := VoteReq(i, p, me.term, |me.log|, LastTerm(me.log), false);
    var (you', term, granted) := OnVoteRequest(you, i, ask.term, ask.lastIndex, ask.lastTerm, false);
    assert granted && term == me.term && you' == VotedFor(you, i, me.term);
    s' := s.(
      servers := s.servers[p := you'],
      sent := s.sent + {VoteResp(p, i, me.term, false, term, granted)},
      h := WithVote(s.h, p, me.term, i));
    assert DoReceiveVoteReq(s, s', ask);
    ReachSelf(peers, s);
    ReachNext(peers, s, s, s', ReceiveVoteReq(ask));
  }

  lemma {:induction false} VotesOfAll(peers: set<NodeId>, s: State, i: NodeId, others: set<NodeId>) returns (s': State)
    requires AsksVotes(peers, s, i) && others <= peers - {i} && peers == s.servers.Keys
    requires forall p | p in others ::
               s.servers[p].term < s.servers[i].term && UpToDate(LastTerm(s.servers[i].log), |s.servers[i].log|, s.servers[p].log)
    ensures CanReach(peers, s, s') && OnlyVotes(s, s')
    ensures var t := s.servers[i].term;
            && s'.servers == AllVoted(s.servers, others, i, t)
            && forall p | p in others :: VoteResp(p, i, t, false, t, true) in s'.sent
    decreases others
  {
    var t := s.servers[i].term;
    if others == {} {
      s' := s;
      ReachSelf(peers, s);
      assert AllVoted(s.servers, {}, i, t) == s.servers;
    } else {
      var p :| p in others;
      var mid := VotesOfAll(peers, s, i, others - {p});
      assert mid.servers[p] == s.servers[p] && mid.servers[i] == s.servers[i];
      s' := VoteOf(peers, mid, i, p);
      ReachTrans(peers, s, mid, s');
      VotesTrans(s, mid, s');
      assert AllVoted(s.servers, others - {p}, i, t)[p := VotedFor(s.servers[p], i, t)] == AllVoted(s.servers, others, i, t);
    }
  }

  /** The node stands for election with the pre-votes it has. */
  lemma Stands(peers: set<NodeId>, s: State, i: NodeId, others: set<NodeId>) returns (s': State)
    requires i in s.servers && others <= peers - {i} && (1 + |others|) * 2 > |peers|
    requires forall p | p in others :: PreVoted(s, i, p)
    ensures CanReach(peers, s, s') && OnlyVotes(s, s') && AsksVotes(peers, s', i)
    ensures s'.servers == s.servers[i := OnElection(s.servers[i], i)]
  {
    var me := OnElection(s.servers[i], i);
    s' := s.(
      servers := s.servers[i := me],
      sent := s.sent + set j | j in peers && j != i :: VoteReq(i, j, me.term, |me.log|, LastTerm(me.log), false),
      h := WithCandidate(s.h, i, me.term, me.log));
    forall p | p in others ensures exists asked, term :: VoteResp(p, i, asked, true, term, true) in s.sent {
      assert PreVoted(s, i, p);
    }
    assert DoStartElection(peers, s, s', i, others);
    ReachSelf(peers, s);
    ReachNext(peers, s, s, s', StartElection(i, others));
  }

  lemma TakesOver(peers: set<NodeId>, s: State, i: NodeId, others: set<NodeId>) returns (s': State)
    requires i in s.servers && others <= peers - {i} && (1 + |others|) * 2 > |peers|
    requires s.servers[i].role == Candidate
    requires forall p | p in others :: VoteResp(p, i, s.servers[i].term, false, s.servers[i].term, true) in s.sent
    ensures CanReach(peers, s, s') && OnlyVotes(s, s')
    ensures s'.servers == s.servers[i := OnElected(s.servers[i], i, peers)]
  {
    var me := s.servers[i];
    s' := s.(servers := s.servers[i := OnElected(me, i, peers)], h := WithLeader(s.h, i, me.term, me.log));
    assert DoBecomeLeader(peers, s, s', i, others);
    ReachSelf(peers, s);
    ReachNext(peers, s, s, s', BecomeLeader(i, others));
  }

  /** The node leads in term t, in which the others voted for it; logs and commit indexes are as before. */
  ghost predicate ElectedBy(peers: set<NodeId>, s: State, s': State, i: NodeId, others: set<NodeId>, t: nat) {
    && i in s.servers && t > s.servers[i].term
    && s'.servers.Keys == s.servers.Keys
    && s'.servers[i] == OnElected(s.servers[i].(role := Candidate, term := t, votedFor := i), i, peers)
    && forall p | p in s.servers && p != i ::
         if p in others then s.servers[p].term < t && s'.servers[p] == VotedFor(s.servers[p], i, t)
         else s'.servers[p] == s.servers[p]
  }

  /** Whatever happened before, a majority can elect any of its nodes whose log is not behind theirs. */
  lemma MajorityElects(peers: set<NodeId>, s: State, i: NodeId, others: set<NodeId>) returns (s': State, t: nat)
    requires peers == s.servers.Keys && i in peers && others <= peers - {i} && (1 + |others|) * 2 > |peers|
    requires forall p | p in others :: UpToDate(LastTerm(s.servers[i].log), |s.servers[i].log|, s.servers[p].log)
    ensures CanReach(peers, s, s') && OnlyVotes(s, s') && ElectedBy(peers, s, s', i, others, t)
  {
    var heard := HearFromAll(peers, s, i, others);
    var asked := AskAll(peers, heard, i, others);
    var stood := Stands(peers, asked, i, others);
    t := stood.servers[i].term;
    var voted := VotesOfAll(peers, stood, i, others);
    assert voted.servers[i] == stood.servers[i];
    s' := TakesOver(peers, voted, i, others);
    ReachTrans(peers, s, heard, asked);
    ReachTrans(peers, s, asked, stood);
    ReachTrans(peers, s, stood, voted);
    ReachTrans(peers, s, voted, s');
    assert s'.servers.Keys == s.servers.Keys;
  }
}
