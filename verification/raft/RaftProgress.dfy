/**
 What a majority can do together.  In every state that can arise, a leader whose next entry to commit
 is of its own term can bring a majority to hand out a new command, and a majority can elect any of its
 nodes whose log is not behind theirs.  A leader whose next entry to commit is of an older term commits
 nothing in its term (RaftStall.dfy), so this condition is exact.
 */
module RaftProgress {
  import opened RaftTypes
  import opened RaftProtocol
  import opened RaftInvariant
  import opened RaftSafety
  import opened RaftReach

  /** The state at the end of some run. */
  ghost predicate Arises(peers: set<NodeId>, s: State) {
    exists root :: Init(peers, root) && CanReach(peers, root, s)
  }

  lemma ArisesThen(peers: set<NodeId>, s: State, s': State)
    requires Arises(peers, s) && CanReach(peers, s, s')
    ensures Arises(peers, s')
  {
    var root :| Init(peers, root) && CanReach(peers, root, s);
    ReachTrans(peers, root, s, s');
  }

  lemma RunArises(peers: set<NodeId>, run: seq<State>)
    requires Run(peers, run)
    ensures Arises(peers, run[|run| - 1])
  {
    RunReaches(peers, run, 0, |run| - 1);
  }

  lemma ArisesInv(peers: set<NodeId>, s: State)
    requires Arises(peers, s)
    ensures Inv(peers, s)
  {
    var root :| Init(peers, root) && CanReach(peers, root, s);
    InitInv(peers, root);
    ReachKeeps(peers, root, s);
  }

  /** One term at one position fixes everything up to it. */
  ghost predicate Matches(a: Log, b: Log) {
    forall k | 0 <= k < |a| && k < |b| && a[k].term == b[k].term :: a[..k + 1] == b[..k + 1]
  }

  /** What is needed of a state that arises. */
  ghost predicate Sound(peers: set<NodeId>, s: State) {
    && s.servers.Keys == peers && NOBODY !in peers
    && (forall i, p | i in s.servers && p in s.servers :: Matches(s.servers[i].log, s.servers[p].log))
    && (forall i | i in s.servers ::
          s.servers[i].commit <= |s.servers[i].log| && s.servers[i].handed == s.servers[i].log[..s.servers[i].commit])
    && (forall i, p | i in s.servers && s.servers[i].role == Leader && p in s.servers && p != i ::
          1 <= NextOf(s.servers[i], p) <= |s.servers[i].log| + 1)
  }

  lemma ArisesSound(peers: set<NodeId>, s: State)
    requires Arises(peers, s)
    ensures Sound(peers, s)
  {
    ArisesInv(peers, s);
    forall i, p | i in s.servers && p in s.servers ensures Matches(s.servers[i].log, s.servers[p].log) {
      var a, b := s.servers[i].log, s.servers[p].log;
      forall k | 0 <= k < |a| && k < |b| && a[k].term == b[k].term ensures a[..k + 1] == b[..k + 1] {
        Matching(s.h, a, b, k);
      }
    }
    forall i | i in s.servers
      ensures s.servers[i].commit <= |s.servers[i].log| && s.servers[i].handed == s.servers[i].log[..s.servers[i].commit]
    {
      assert CommitsAt(peers, s, s.servers[i]);
    }
  }

  // ---- one exchange with one peer ----

  /** Messages are added; the requests to append among them carry this commit index. */
  ghost predicate SendsWith(s: State, s': State, commit: nat) {
    && s.sent <= s'.sent
    && forall m | m in s'.sent && m.AppendReq? :: m in s.sent || m.commit == commit
  }

  lemma SendsTrans(s: State, mid: State, s': State, commit: nat)
    requires SendsWith(s, mid, commit) && SendsWith(mid, s', commit)
    ensures SendsWith(s, s', commit)
  {
  }

  ghost predicate CanSend(peers: set<NodeId>, s: State, i: NodeId, p: NodeId) {
    && i in s.servers && p in s.servers && p in peers && p != i
    && s.servers[i].role == Leader && s.servers[p].term <= s.servers[i].term
    && 1 <= NextOf(s.servers[i], p) <= |s.servers[i].log| + 1
  }

  /** The leader sends everything behind its next index, and the peer answers. */
  lemma SendTo(peers: set<NodeId>, s: State, i: NodeId, p: NodeId, commit: nat) returns (s': State)
    requires CanSend(peers, s, i, p) && commit <= s.servers[i].commit
    ensures CanReach(peers, s, s') && SendsWith(s, s', commit)
    ensures var me, prev := s.servers[i], NextOf(s.servers[i], p) - 1;
            var (you, term, success) := OnAppendRequest(s.servers[p], me.term, prev, TermAt(me.log, prev), me.log[prev..], commit);
            && s'.servers == s.servers[p := you]
            && AppendResp(p, i, me.term, prev, |me.log| - prev, term, success) in s'.sent
  {
    var me, prev := s.servers[i], NextOf(s.servers[i], p) - 1;
    var count := |me.log| - prev;
    assert me.log[prev..prev + count] == me.log[prev..];
    var m := RequestTo(me, i, p, prev, count, commit);
    var s1 := s.(sent := s.sent + {m});
    assert DoSendAppend(peers, s, s1, i, p, count, commit);
    ReachSelf(peers, s);
    ReachNext(peers, s, s, s1, SendAppend(i, p, count, commit));
    var (you, term, success) := OnAppendRequest(s.servers[p], m.term, m.prevIndex, m.prevTerm, m.entries, m.commit);
    s' := s1.(
      servers := s1.servers[p := you],
      sent := s1.sent + {AppendResp(p, i, m.term, m.prevIndex, |m.entries|, term, success)},
      h := if success then WithAck(s1.h, p, m.term, m.prevIndex + |m.entries|) else s1.h);
    assert DoReceiveAppendReq(s1, s', m);
    ReachNext(peers, s, s1, s', ReceiveAppendReq(m));
  }

  lemma HearReply(peers: set<NodeId>, s: State, i: NodeId, p: NodeId, prev: nat, count: nat, success: bool) returns (s': State)
    requires i in s.servers && AppendResp(p, i, s.servers[i].term, prev, count, s.servers[i].term, success) in s.sent
    ensures CanReach(peers, s, s') && s'.sent == s.sent
    ensures var me := s.servers[i];
            s'.servers == s.servers[i := OnAppendReply(me, i, peers, p, me.term, prev, count, me.term, success)]
  {
    var me := s.servers[i];
    var m := AppendResp(p, i, me.term, prev, count, me.term, success);
    s' := s.(servers := s.servers[i := OnAppendReply(me, i, peers, p, me.term, prev, count, me.term, success)]);
    assert DoReceiveAppendResp(peers, s, s', m);
    ReachSelf(peers, s);
    ReachNext(peers, s, s, s', ReceiveAppendResp(m));
  }

  // ---- finding where the logs agree ----

  /** The node, a follower of term t now, with this log. */
  function Following(you: Server, t: nat, log: Log): Server {
    AdoptTerm(you, t).(role := Follower, log := log)
  }

  function WithNext(me: Server, p: NodeId, next: nat): Server {
    me.(nextIndex := me.nextIndex[p := next])
  }

  lemma Refuses(you: Server, t: nat, prev: nat, prevTerm: nat, entries: seq<LogEntry>, commit: nat)
    requires you.term <= t && !PrevMatches(you.log, prev, prevTerm)
    ensures OnAppendRequest(you, t, prev, prevTerm, entries, commit) == (Following(you, t, you.log), t, false)
  {
  }

  lemma GoesBack(me: Server, i: NodeId, peers: set<NodeId>, p: NodeId, prev: nat, count: nat)
    requires me.role == Leader && NextOf(me, p) > 1
    ensures OnAppendReply(me, i, peers, p, me.term, prev, count, me.term, false) == WithNext(me, p, NextOf(me, p) - 1)
  {
  }

  /** The leader's log up to the next index of p matches the log of p. */
  ghost predicate Found(s: State, i: NodeId, p: NodeId) {
    && i in s.servers && p in s.servers && 1 <= NextOf(s.servers[i], p) <= |s.servers[i].log|
    && var prev := NextOf(s.servers[i], p) - 1;
    PrevMatches(s.servers[p].log, prev, TermAt(s.servers[i].log, prev))
  }

  /** The next index of p goes back until the logs match there. */
  lemma {:induction false} BacksOff(peers: set<NodeId>, s: State, i: NodeId, p: NodeId) returns (s': State, you: Server)
    requires CanSend(peers, s, i, p) && NextOf(s.servers[i], p) <= |s.servers[i].log|
    ensures CanReach(peers, s, s') && SendsWith(s, s', 0) && Found(s', i, p)
    ensures s'.servers == s.servers[i := WithNext(s.servers[i], p, NextOf(s'.servers[i], p))][p := you]
    ensures you == s.servers[p] || you == Following(s.servers[p], s.servers[i].term, s.servers[p].log)
    decreases NextOf(s.servers[i], p)
  {
    var me, prev := s.servers[i], NextOf(s.servers[i], p) - 1;
    if PrevMatches(s.servers[p].log, prev, TermAt(me.log, prev)) {
      s', you := s, s.servers[p];
      ReachSelf(peers, s);
      assert WithNext(me, p, NextOf(me, p)) == me by {
        assert me.nextIndex[p := NextOf(me, p)] == me.nextIndex;
      }
    } else {
      you := Following(s.servers[p], me.term, s.servers[p].log);
      Refuses(s.servers[p], me.term, prev, TermAt(me.log, prev), me.log[prev..], 0);
      var s1 := SendTo(peers, s, i, p, 0);
      GoesBack(me, i, peers, p, prev, |me.log| - prev);
      var s2 := HearReply(peers, s1, i, p, prev, |me.log| - prev, false);
      var you': Server;
      s', you' := BacksOff(peers, s2, i, p);
      ReachTrans(peers, s, s1, s2);
      ReachTrans(peers, s, s2, s');
      assert you' == you;
      assert WithNext(WithNext(me, p, prev), p, NextOf(s'.servers[i], p)) == WithNext(me, p, NextOf(s'.servers[i], p)) by {
        assert me.nextIndex[p := prev][p := NextOf(s'.servers[i], p)] == me.nextIndex[p := NextOf(s'.servers[i], p)];
      }
    }
  }

  // ---- bringing one peer up to date ----

  /** Storing the rest of a matching log behind a common prefix leaves that log in front. */
  lemma {:induction false} MergeBrings(log: Log, prev: nat, l: Log)
    requires Matches(l, log) && prev <= |l| && prev <= |log| && log[..prev] == l[..prev]
    ensures l <= Merge(log, prev, l[prev..])
    decreases |l| - prev
  {
    if prev < |l| {
      assert l[prev..][1..] == l[prev + 1..] && l[prev..][0] == l[prev];
      if prev < |log| && log[prev].term == l[prev].term {
        MergeBrings(log, prev + 1, l);
      } else {
        var cut := log[..prev] + [l[prev]];
        assert cut == l[..prev + 1];
        MergeBrings(cut, prev + 1, l);
      }
    } else {
      assert l[prev..] == [] && log[..prev] == l;
    }
  }

  /** A matching request is stored, and commits nothing beyond the given index. */
  lemma Accepts(you: Server, t: nat, prev: nat, l: Log, commit: nat)
    requires you.term <= t && prev <= |l| && Matches(l, you.log) && PrevMatches(you.log, prev, TermAt(l, prev))
    ensures var (you', term, success) := OnAppendRequest(you, t, prev, TermAt(l, prev), l[prev..], commit);
            && success && term == t && you'.term == t && l <= you'.log
            && you'.commit == Max(you.commit, Min(commit, |l|))
  {
    if prev > 0 {
      assert l[prev - 1].term == you.log[prev - 1].term;
      assert l[..prev] == you.log[..prev];
    }
    MergeBrings(you.log, prev, l);
  }

  /** Only the leader and p have changed: the leader in what it knows about p, and p holds the leader's log. */
  ghost predicate Brought(s: State, s': State, i: NodeId, p: NodeId) {
    && i in s.servers && p in s.servers && p != i
    && s'.servers.Keys == s.servers.Keys
    && (forall x | x in s.servers && x != i && x != p :: s'.servers[x] == s.servers[x])
    && s'.servers[i] == WithNext(s.servers[i], p, NextOf(s'.servers[i], p))
    && s'.servers[p].term == s.servers[i].term
    && s'.servers[p].commit == s.servers[p].commit
    && s.servers[i].log <= s'.servers[p].log
  }

  /** Once the logs match below the next index of p, sending brings p the leader's log. */
  lemma SendBrings(peers: set<NodeId>, s: State, i: NodeId, p: NodeId) returns (s': State)
    requires CanSend(peers, s, i, p) && Found(s, i, p) && Matches(s.servers[i].log, s.servers[p].log)
    ensures CanReach(peers, s, s') && SendsWith(s, s', 0)
    ensures p in s'.servers && s'.servers == s.servers[p := s'.servers[p]]
    ensures s'.servers[p].term == s.servers[i].term && s'.servers[p].commit == s.servers[p].commit
    ensures s.servers[i].log <= s'.servers[p].log
    ensures var t, prev := s.servers[i].term, NextOf(s.servers[i], p) - 1;
            AppendResp(p, i, t, prev, |s.servers[i].log| - prev, t, true) in s'.sent
  {
    Accepts(s.servers[p], s.servers[i].term, NextOf(s.servers[i], p) - 1, s.servers[i].log, 0);
    s' := SendTo(peers, s, i, p, 0);
  }

  /** A peer of no newer term gets the whole log of the leader, and its answer is on the way. */
  lemma Brings(peers: set<NodeId>, s: State, i: NodeId, p: NodeId) returns (s': State, prev: nat)
    requires CanSend(peers, s, i, p) && NextOf(s.servers[i], p) <= |s.servers[i].log|
    requires Matches(s.servers[i].log, s.servers[p].log)
    ensures CanReach(peers, s, s') && SendsWith(s, s', 0) && Brought(s, s', i, p)
    ensures prev < |s.servers[i].log|
    ensures var t := s.servers[i].term; AppendResp(p, i, t, prev, |s.servers[i].log| - prev, t, true) in s'.sent
  {
    var s1, you := BacksOff(peers, s, i, p);
    prev := NextOf(s1.servers[i], p) - 1;
    assert s1.servers[p] == you && s1.servers[i].log == s.servers[i].log;
    s' := SendBrings(peers, s1, i, p);
    assert s'.servers[i] == s1.servers[i];
    ReachTrans(peers, s, s1, s');
    SendsTrans(s, s1, s', 0);
  }

  // ---- counting ----

  /** The entries from the commit index on are of the leader's own term. */
  ghost predicate OwnFrom(me: Server) {
    forall k | me.commit <= k < |me.log| :: me.log[k].term == me.term
  }

  /** Entries of the present term that a majority holds are committed. */
  lemma {:induction false} AdvanceReaches(me: Server, i: NodeId, peers: set<NodeId>, done: set<NodeId>)
    requires me.commit <= |me.log| && done <= peers - {i} && (1 + |done|) * 2 > |peers|
    requires forall p | p in done :: MatchOf(me, p) >= |me.log|
    requires OwnFrom(me)
    ensures AdvanceCommit(me, i, peers).commit == |me.log|
    decreases |me.log| - me.commit
  {
    if me.commit < |me.log| {
      SubsetSize(done, Holders(me, i, peers, me.commit + 1));
      AdvanceReaches(me.(commit := me.commit + 1), i, peers, done);
    }
  }

  /** What the leader knows once p has answered, and how far it commits. */
  lemma Credits(me: Server, i: NodeId, peers: set<NodeId>, p: NodeId, prev: nat)
    requires me.role == Leader && me.commit <= |me.log| && prev < |me.log|
    ensures var me' := OnAppendReply(me, i, peers, p, me.term, prev, |me.log| - prev, me.term, true);
            && me'.role == Leader && me'.term == me.term && me'.log == me.log
            && me'.nextIndex == me.nextIndex[p := |me.log| + 1] && me'.matchIndex == me.matchIndex[p := |me.log|]
            && me.commit <= me'.commit <= |me.log|
  {
    var me1 := me.(nextIndex := me.nextIndex[p := |me.log| + 1], matchIndex := me.matchIndex[p := |me.log|]);
    AdvanceCommitBound(me1, i, peers);
  }

  lemma CreditsAll(me: Server, i: NodeId, peers: set<NodeId>, p: NodeId, prev: nat, done: set<NodeId>)
    requires me.role == Leader && me.commit <= |me.log| && prev < |me.log|
    requires done <= peers - {i} && p in done && (1 + |done|) * 2 > |peers|
    requires forall x | x in done && x != p :: MatchOf(me, x) >= |me.log|
    requires OwnFrom(me)
    ensures OnAppendReply(me, i, peers, p, me.term, prev, |me.log| - prev, me.term, true).commit == |me.log|
  {
    var me1 := me.(nextIndex := me.nextIndex[p := |me.log| + 1], matchIndex := me.matchIndex[p := |me.log|]);
    AdvanceReaches(me1, i, peers, done);
    AdvanceCommitBound(me1, i, peers);
  }

  // ---- a whole majority ----

  /** The node holds the leader's log, and the leader counts it. */
  ghost predicate PeerServed(me: Server, me': Server, you': Server, p: NodeId) {
    me.log <= you'.log && you'.term == me.term && MatchOf(me', p) == |me.log| && NextOf(me', p) == |me.log| + 1
  }

  ghost predicate PeerWaits(me: Server, me': Server, you: Server, you': Server, p: NodeId) {
    you' == you && NextOf(me', p) == NextOf(me, p)
  }

  /** From s on, the leader has brought these nodes its log and counts them; the rest is as it was. */
  ghost predicate Served(peers: set<NodeId>, s: State, s': State, i: NodeId, done: set<NodeId>) {
    && i in s.servers && s'.servers.Keys == s.servers.Keys && done <= peers - {i} && peers == s.servers.Keys
    && var me, me' := s.servers[i], s'.servers[i];
    && me'.role == Leader && me'.term == me.term && me'.log == me.log
    && me.commit <= me'.commit <= |me.log|
    && (forall p {:trigger PeerServed(me, me', s'.servers[p], p)} | p in done :: PeerServed(me, me', s'.servers[p], p))
    && (forall p {:trigger PeerWaits(me, me', s.servers[p], s'.servers[p], p)} | p in s.servers && p != i && p !in done ::
          PeerWaits(me, me', s.servers[p], s'.servers[p], p))
    && ((1 + |done|) * 2 > |peers| ==> me'.commit == |me.log|)
  }

  /** The leader's entries not yet committed are its own, and it can send every one of these nodes something. */
  ghost predicate CanServe(peers: set<NodeId>, s: State, i: NodeId, others: set<NodeId>) {
    && i in s.servers && s.servers[i].role == Leader && s.servers[i].commit <= |s.servers[i].log|
    && others <= peers - {i} && peers == s.servers.Keys
    && (forall p | p in others :: CanSend(peers, s, i, p) && NextOf(s.servers[i], p) <= |s.servers[i].log|)
    && OwnFrom(s.servers[i])
    && (|peers| <= 1 ==> s.servers[i].commit == |s.servers[i].log|)
  }

  /** The leader has counted p. */
  ghost predicate Counted(me: Server, me': Server, p: NodeId) {
    && me'.role == Leader && me'.term == me.term && me'.log == me.log
    && me'.nextIndex == me.nextIndex[p := |me.log| + 1] && me'.matchIndex == me.matchIndex[p := |me.log|]
    && me.commit <= me'.commit <= |me.log|
  }

  /** After p has answered, the leader serves one node more. */
  lemma ServedMore(peers: set<NodeId>, s: State, mid: State, s1: State, s': State, i: NodeId, done: set<NodeId>, p: NodeId)
    requires p !in done && Served(peers, s, mid, i, done) && Brought(mid, s1, i, p)
    requires i in s'.servers && s'.servers == s1.servers[i := s'.servers[i]] && Counted(s1.servers[i], s'.servers[i], p)
    requires (1 + |done + {p}|) * 2 > |peers| ==> s'.servers[i].commit == |s'.servers[i].log|
    ensures Served(peers, s, s', i, done + {p})
  {
    var me, me' := s.servers[i], s'.servers[i];
    forall x | x in s.servers && x != i && x !in done + {p} ensures PeerWaits(me, me', s.servers[x], s'.servers[x], x) {
      assert PeerWaits(me, mid.servers[i], s.servers[x], mid.servers[x], x);
      assert s1.servers[x] == mid.servers[x];
    }
    forall x | x in done + {p} ensures PeerServed(me, me', s'.servers[x], x) {
      if x != p {
        assert PeerServed(me, mid.servers[i], mid.servers[x], x);
        assert s1.servers[x] == mid.servers[x];
      }
    }
  }

  /** The reply of p, when these others have been counted before. */
  lemma ReplyCounts(me: Server, i: NodeId, peers: set<NodeId>, p: NodeId, prev: nat, done: set<NodeId>)
    requires me.role == Leader && me.commit <= |me.log| && prev < |me.log| && OwnFrom(me)
    requires done <= peers - {i} && p in peers && p != i
    requires forall x | x in done :: MatchOf(me, x) == |me.log|
    ensures var me' := OnAppendReply(me, i, peers, p, me.term, prev, |me.log| - prev, me.term, true);
            Counted(me, me', p) && ((1 + |done + {p}|) * 2 > |peers| ==> me'.commit == |me.log|)
  {
    Credits(me, i, peers, p, prev);
    if (1 + |done + {p}|) * 2 > |peers| {
      CreditsAll(me, i, peers, p, prev, done + {p});
    }
  }

  lemma ServeOne(peers: set<NodeId>, s: State, mid: State, i: NodeId, done: set<NodeId>, p: NodeId) returns (s': State)
    requires CanServe(peers, s, i, done + {p}) && p !in done && Served(peers, s, mid, i, done)
    requires Matches(mid.servers[i].log, mid.servers[p].log)
    ensures CanReach(peers, mid, s') && SendsWith(mid, s', 0) && Served(peers, s, s', i, done + {p})
  {
    assert CanSend(peers, s, i, p) && PeerWaits(s.servers[i], mid.servers[i], s.servers[p], mid.servers[p], p);
    var s1, prev := Brings(peers, mid, i, p);
    forall x | x in done ensures MatchOf(s1.servers[i], x) == |s1.servers[i].log| {
      assert PeerServed(s.servers[i], mid.servers[i], mid.servers[x], x);
    }
    ReplyCounts(s1.servers[i], i, peers, p, prev, done);
    s' := HearReply(peers, s1, i, p, prev, |s1.servers[i].log| - prev, true);
    ServedMore(peers, s, mid, s1, s', i, done, p);
    ReachTrans(peers, mid, s1, s');
  }

  lemma {:induction false} ServeAll(peers: set<NodeId>, s: State, i: NodeId, others: set<NodeId>) returns (s': State)
    requires Arises(peers, s) && CanServe(peers, s, i, others)
    ensures CanReach(peers, s, s') && SendsWith(s, s', 0) && Served(peers, s, s', i, others)
    decreases others
  {
    if others == {} {
      s' := s;
      ReachSelf(peers, s);
    } else {
      var p :| p in others;
      assert (others - {p}) + {p} == others;
      var mid := ServeAll(peers, s, i, others - {p});
      ArisesThen(peers, s, mid);
      ArisesSound(peers, mid);
      s' := ServeOne(peers, s, mid, i, others - {p}, p);
      ReachTrans(peers, s, mid, s');
      SendsTrans(s, mid, s', 0);
    }
  }

  // ---- telling a majority what is committed ----

  /** These nodes hold the leader's log and know that all of it is committed. */
  ghost predicate Told(s: State, s': State, i: NodeId, done: set<NodeId>) {
    && i in s.servers && s'.servers.Keys == s.servers.Keys && s'.servers[i] == s.servers[i]
    && (forall p | p in s.servers && p !in done :: s'.servers[p] == s.servers[p])
    && (forall p | p in s.servers && p in done ::
          s.servers[i].log <= s'.servers[p].log && s'.servers[p].commit >= |s.servers[i].log|)
  }

  ghost predicate UpToDatePeer(peers: set<NodeId>, s: State, i: NodeId, p: NodeId) {
    && CanSend(peers, s, i, p) && NextOf(s.servers[i], p) == |s.servers[i].log| + 1
    && s.servers[i].log <= s.servers[p].log && s.servers[i].commit == |s.servers[i].log|
  }

  lemma TellOne(peers: set<NodeId>, s: State, i: NodeId, p: NodeId) returns (s': State)
    requires UpToDatePeer(peers, s, i, p)
    ensures CanReach(peers, s, s')
    ensures p in s'.servers && s'.servers == s.servers[p := s'.servers[p]]
    ensures s.servers[i].log <= s'.servers[p].log && s'.servers[p].commit >= |s.servers[i].log|
  {
    var l, you := s.servers[i].log, s.servers[p];
    assert l[|l|..] == [];
    assert l == [] || (|l| <= |you.log| && you.log[|l| - 1] == l[|l| - 1]);
    s' := SendTo(peers, s, i, p, |l|);
  }

  lemma {:induction false} TellAll(peers: set<NodeId>, s: State, i: NodeId, others: set<NodeId>) returns (s': State)
    requires i in s.servers && i !in others && forall p | p in others :: UpToDatePeer(peers, s, i, p)
    ensures CanReach(peers, s, s') && Told(s, s', i, others)
    decreases others
  {
    if others == {} {
      s' := s;
      ReachSelf(peers, s);
    } else {
      var p :| p in others;
      var mid := TellAll(peers, s, i, others - {p});
      assert UpToDatePeer(peers, s, i, p);
      s' := TellOne(peers, mid, i, p);
      ReachTrans(peers, s, mid, s');
    }
  }

  // ---- progress ----

  lemma Appends(peers: set<NodeId>, s: State, i: NodeId, kind: LogType, data: seq<bv8>) returns (s': State)
    requires i in s.servers && s.servers[i].role == Leader
    ensures CanReach(peers, s, s') && s'.sent == s.sent
    ensures s'.servers == s.servers[i := OnLeaderAppend(s.servers[i], i, peers, kind, data)]
  {
    var me := OnLeaderAppend(s.servers[i], i, peers, kind, data);
    s' := s.(servers := s.servers[i := me], h := WithAck(WithLeaderLog(s.h, me.term, me.log), i, me.term, |me.log|));
    assert DoLeaderAppend(peers, s, s', i, kind, data);
    ReachSelf(peers, s);
    ReachNext(peers, s, s, s', LeaderAppend(i, kind, data));
  }

  /** The leader leads on with this log, and all these nodes have handed all of it out. */
  ghost predicate AllHandOut(s: State, i: NodeId, t: nat, log: Log, q: set<NodeId>) {
    && i in s.servers && s.servers[i].role == Leader && s.servers[i].term == t && s.servers[i].log == log
    && forall p | p in q :: p in s.servers && log <= s.servers[p].handed
  }

  /** A leader whose next indexes are in order has something to send once it appends. */
  lemma AppendServes(peers: set<NodeId>, s: State, s': State, i: NodeId, others: set<NodeId>, kind: LogType, data: seq<bv8>)
    requires peers == s.servers.Keys && i in peers && others <= peers - {i}
    requires var me := s.servers[i];
             && me.role == Leader && OwnFrom(me) && me.commit <= |me.log|
             && forall p | p in others :: s.servers[p].term <= me.term && 1 <= NextOf(me, p) <= |me.log| + 1
    requires s'.servers == s.servers[i := OnLeaderAppend(s.servers[i], i, peers, kind, data)]
    ensures CanServe(peers, s', i, others)
    ensures var me := s.servers[i];
            s'.servers[i].log == me.log + [LogEntry(|me.log| + 1, me.term, kind, data)] && s'.servers[i].term == me.term
  {
    var me, me' := s.servers[i], s'.servers[i];
    if |peers| <= 1 {
      SubsetSize({i}, peers);
    }
    forall p | p in others ensures CanSend(peers, s', i, p) && NextOf(me', p) <= |me'.log| {
      assert NextOf(me', p) == NextOf(me, p);
    }
  }

  lemma Serves(peers: set<NodeId>, s: State, i: NodeId, others: set<NodeId>, kind: LogType, data: seq<bv8>) returns (s': State)
    requires Arises(peers, s) && i in peers && others <= peers - {i}
    requires i in s.servers && s.servers[i].role == Leader && OwnFrom(s.servers[i])
    requires forall p | p in others :: p in s.servers && s.servers[p].term <= s.servers[i].term
    ensures CanReach(peers, s, s') && CanServe(peers, s', i, others)
    ensures s'.servers.Keys == s.servers.Keys && forall p | p in s.servers && p != i :: s'.servers[p] == s.servers[p]
    ensures var me := s.servers[i];
            s'.servers[i].log == me.log + [LogEntry(|me.log| + 1, me.term, kind, data)] && s'.servers[i].term == me.term
  {
    ArisesSound(peers, s);
    s' := Appends(peers, s, i, kind, data);
    AppendServes(peers, s, s', i, others, kind, data);
  }

  lemma ServedAreUpToDate(peers: set<NodeId>, s: State, s': State, i: NodeId, others: set<NodeId>)
    requires CanServe(peers, s, i, others) && Served(peers, s, s', i, others) && (1 + |others|) * 2 > |peers|
    ensures forall p | p in others :: UpToDatePeer(peers, s', i, p)
  {
    forall p | p in others ensures UpToDatePeer(peers, s', i, p) {
      assert CanSend(peers, s, i, p);
      assert PeerServed(s.servers[i], s'.servers[i], s'.servers[p], p);
    }
  }

  lemma ToldHandOut(peers: set<NodeId>, s: State, s': State, i: NodeId, others: set<NodeId>)
    requires Told(s, s', i, others) && Sound(peers, s') && s.servers[i].commit == |s.servers[i].log|
    requires s.servers[i].role == Leader && others <= peers - {i}
    ensures AllHandOut(s', i, s.servers[i].term, s.servers[i].log, others + {i})
  {
  }

  ghost predicate OnlyThese(s: State, s': State, q: set<NodeId>) {
    s'.servers.Keys == s.servers.Keys && forall p | p in s.servers && p !in q :: s'.servers[p] == s.servers[p]
  }

  lemma ServedOnlyThese(peers: set<NodeId>, s: State, s': State, i: NodeId, others: set<NodeId>)
    requires Served(peers, s, s', i, others)
    ensures OnlyThese(s, s', others + {i})
  {
    forall p | p in s.servers && p !in others + {i} ensures s'.servers[p] == s.servers[p] {
      assert PeerWaits(s.servers[i], s'.servers[i], s.servers[p], s'.servers[p], p);
    }
  }

  /** Every one of these nodes gets the leader's log and hands it out. */
  lemma ServesOut(peers: set<NodeId>, s: State, i: NodeId, others: set<NodeId>) returns (s': State)
    requires Arises(peers, s) && CanServe(peers, s, i, others) && (1 + |others|) * 2 > |peers|
    ensures CanReach(peers, s, s') && OnlyThese(s, s', others + {i})
    ensures AllHandOut(s', i, s.servers[i].term, s.servers[i].log, others + {i})
  {
    var mid := ServeAll(peers, s, i, others);
    ServedAreUpToDate(peers, s, mid, i, others);
    ServedOnlyThese(peers, s, mid, i, others);
    s' := TellAll(peers, mid, i, others);
    ReachTrans(peers, s, mid, s');
    ArisesThen(peers, s, s');
    ArisesSound(peers, s');
    ToldHandOut(peers, mid, s', i, others);
  }

  /** A leader with only own entries to commit brings any majority of no newer term to hand out a new command. */
  lemma LeaderDrives(peers: set<NodeId>, s: State, i: NodeId, others: set<NodeId>, kind: LogType, data: seq<bv8>) returns (s': State)
    requires Arises(peers, s) && i in peers && others <= peers - {i} && (1 + |others|) * 2 > |peers|
    requires i in s.servers && s.servers[i].role == Leader && OwnFrom(s.servers[i])
    requires forall p | p in others :: p in s.servers && s.servers[p].term <= s.servers[i].term
    ensures CanReach(peers, s, s') && OnlyThese(s, s', others + {i})
    ensures var me := s.servers[i];
            AllHandOut(s', i, me.term, me.log + [LogEntry(|me.log| + 1, me.term, kind, data)], others + {i})
  {
    var mid := Serves(peers, s, i, others, kind, data);
    ArisesThen(peers, s, mid);
    s' := ServesOut(peers, mid, i, others);
    ReachTrans(peers, s, mid, s');
  }

  /** By term first and by index then, the last entry of log a is not behind that of log b. */
  ghost predicate LogNotBehind(a: Log, b: Log) {
    || b == []
    || (a != [] && a[|a| - 1].term > b[|b| - 1].term)
    || (a != [] && a[|a| - 1].term == b[|b| - 1].term && |a| >= |b|)
  }

  /** Nothing keeps the node from committing what it appends in a new term. */
  ghost predicate AllCommitted(peers: set<NodeId>, me: Server) {
    |peers| == 1 || me.commit == |me.log|
  }

  /** With its NoOp the new leader has only own entries to commit. */
  lemma NoOpIsOwn(peers: set<NodeId>, me: Server, i: NodeId)
    requires i in peers && me.commit <= |me.log| && AllCommitted(peers, me)
    ensures var me' := OnLeaderAppend(me, i, peers, LogNoOp, []);
            && OwnFrom(me') && me'.role == me.role && me'.term == me.term
            && me'.log == me.log + [LogEntry(|me.log| + 1, me.term, LogNoOp, [])]
  {
  }

  lemma ArisesCommit(peers: set<NodeId>, s: State, i: NodeId)
    requires Arises(peers, s) && i in s.servers
    ensures s.servers[i].commit <= |s.servers[i].log| && s.servers[i].handed == s.servers[i].log[..s.servers[i].commit]
  {
    ArisesSound(peers, s);
  }

  /** The new leader has appended its NoOp and can drive these nodes. */
  ghost predicate Ready(s: State, i: NodeId, others: set<NodeId>, t: nat, log: Log) {
    && i in s.servers && s.servers[i].role == Leader && s.servers[i].term == t && s.servers[i].log == log
    && OwnFrom(s.servers[i])
    && forall p | p in others :: p in s.servers && s.servers[p].term <= t
  }

  lemma NewLeaderAppends(peers: set<NodeId>, s: State, elected: State, i: NodeId, others: set<NodeId>, t: nat) returns (s': State)
    requires Arises(peers, elected) && peers == s.servers.Keys && i in peers && others <= peers - {i}
    requires ElectedBy(peers, s, elected, i, others, t) && AllCommitted(peers, s.servers[i])
    ensures CanReach(peers, elected, s') && OnlyThese(elected, s', others + {i})
    ensures var log := s.servers[i].log; Ready(s', i, others, t, log + [LogEntry(|log| + 1, t, LogNoOp, [])])
  {
    ArisesCommit(peers, elected, i);
    NoOpIsOwn(peers, elected.servers[i], i);
    s' := Appends(peers, elected, i, LogNoOp, []);
  }

  lemma NewLeaderDrives(peers: set<NodeId>, s: State, elected: State, i: NodeId, others: set<NodeId>, t: nat, data: seq<bv8>) returns (s': State)
    requires Arises(peers, elected) && peers == s.servers.Keys
    requires i in peers && others <= peers - {i} && (1 + |others|) * 2 > |peers|
    requires ElectedBy(peers, s, elected, i, others, t) && AllCommitted(peers, s.servers[i])
    ensures CanReach(peers, elected, s') && OnlyThese(elected, s', others + {i})
    ensures var log := s.servers[i].log;
            AllHandOut(s', i, t, log + [LogEntry(|log| + 1, t, LogNoOp, []), LogEntry(|log| + 2, t, LogCommand, data)], others + {i})
  {
    var log := s.servers[i].log;
    var ready := NewLeaderAppends(peers, s, elected, i, others, t);
    ArisesThen(peers, elected, ready);
    s' := ReadyDrives(peers, ready, i, others, t, log, data);
    ReachTrans(peers, elected, ready, s');
  }

  lemma ReadyDrives(peers: set<NodeId>, s: State, i: NodeId, others: set<NodeId>, t: nat, log: Log, data: seq<bv8>) returns (s': State)
    requires Arises(peers, s) && i in peers && others <= peers - {i} && (1 + |others|) * 2 > |peers|
    requires Ready(s, i, others, t, log + [LogEntry(|log| + 1, t, LogNoOp, [])])
    ensures CanReach(peers, s, s') && OnlyThese(s, s', others + {i})
    ensures AllHandOut(s', i, t, log + [LogEntry(|log| + 1, t, LogNoOp, []), LogEntry(|log| + 2, t, LogCommand, data)], others + {i})
  {
    s' := LeaderDrives(peers, s, i, others, LogCommand, data);
    assert log + [LogEntry(|log| + 1, t, LogNoOp, [])] + [LogEntry(|log| + 2, t, LogCommand, data)]
           == log + [LogEntry(|log| + 1, t, LogNoOp, []), LogEntry(|log| + 2, t, LogCommand, data)];
  }

  /**
   Whatever has happened, a majority can elect any of its nodes whose log is not behind theirs, in a
   new term; and if that node knows all its entries to be committed, all of the majority can hand out
   its log, its NoOp and any command, without a single step of the other nodes.
   */
  lemma MajorityMakesProgress(peers: set<NodeId>, run: seq<State>, q: set<NodeId>, i: NodeId, data: seq<bv8>)
    returns (run': seq<State>, t: nat)
    requires Run(peers, run) && Majority(q, peers) && i in q && run[|run| - 1].servers.Keys == peers
    requires var s := run[|run| - 1];
             AllCommitted(peers, s.servers[i]) && forall p | p in q :: LogNotBehind(s.servers[i].log, s.servers[p].log)
    ensures Run(peers, run') && run <= run'
    ensures var s, s' := run[|run| - 1], run'[|run'| - 1];
            var log := s.servers[i].log;
            && OnlyThese(s, s', q) && t > s.servers[i].term
            && AllHandOut(s', i, t, log + [LogEntry(|log| + 1, t, LogNoOp, []), LogEntry(|log| + 2, t, LogCommand, data)], q)
  {
    var s, others := run[|run| - 1], q - {i};
    assert q == others + {i};
    RunArises(peers, run);
    forall p | p in others ensures UpToDate(LastTerm(s.servers[i].log), |s.servers[i].log|, s.servers[p].log) {
      assert LogNotBehind(s.servers[i].log, s.servers[p].log);
    }
    var elected: State;
    elected, t := MajorityElects(peers, s, i, others);
    ArisesThen(peers, s, elected);
    var s' := NewLeaderDrives(peers, s, elected, i, others, t, data);
    ReachTrans(peers, s, elected, s');
    run' := ReachRun(peers, run, s');
  }

  /** From the start, any majority can elect any of its nodes and hand out any command. */
  lemma FreshClusterHandsOut(peers: set<NodeId>, start: State, q: set<NodeId>, i: NodeId, data: seq<bv8>) returns (run: seq<State>, t: nat)
    requires Init(peers, start) && Majority(q, peers) && i in q
    ensures Run(peers, run) && run[0] == start && t > 0
    ensures AllHandOut(run[|run| - 1], i, t, [LogEntry(1, t, LogNoOp, []), LogEntry(2, t, LogCommand, data)], q)
  {
    run, t := MajorityMakesProgress(peers, [start], q, i, data);
    assert [] + [LogEntry(1, t, LogNoOp, []), LogEntry(2, t, LogCommand, data)]
           == [LogEntry(1, t, LogNoOp, []), LogEntry(2, t, LogCommand, data)];
  }
}
