/**
 The index of sessions by agent (internal/agent/session.go): while it has an entry for each session and no
 other, listing by agent finds exactly the agent's sessions.  Creating and deleting keep it so; updating does
 only if the session keeps its agent.
 */
module SessionIndex {
  import opened Bytes
  import opened KeyEncode
  import opened Engine
  import opened Session

  predicate IsStored(data: Data, s: AgentSession) {
    SessionKey(s.id) in data && data[SessionKey(s.id)] == SessionRec(s)
  }

  /** Agent names hold no zero either. */
  predicate IsAgentId(agent: Key) { 0 !in agent }

  /** Under the key is the index entry of a stored session. */
  ghost predicate IsEntry(data: Data, k: Key) {
    exists s :: IsStored(data, s) && k == AgentKey(s)
  }

  ghost predicate Indexed(data: Data) {
    && WellKept(data)
    && (forall s | IsStored(data, s) :: IsAgentId(s.agent) && AgentKey(s) in data)
    && (forall k | k in data && k != [] && k[0] == PREFIX_SESSION && data[k] == Mark :: IsEntry(data, k))
  }

  // ---- what an index key tells ----

  lemma KeyTells(a: AgentSession, b: AgentSession)
    requires IsAgentId(a.agent) && IsAgentId(b.agent) && AgentKey(a) == AgentKey(b)
    ensures a.agent == b.agent && a.id == b.id
  {
    PrefixTells(a.agent, b);
    IndexIdReadBack(PREFIX_SESSION, a.agent, a.id);
    IndexIdReadBack(PREFIX_SESSION, b.agent, b.id);
  }

  /** An index entry begins with the prefix of an agent exactly when it is of a session of that agent. */
  lemma PrefixTells(agent: Key, s: AgentSession)
    requires IsAgentId(agent) && IsAgentId(s.agent)
    ensures AgentPrefix(agent) <= AgentKey(s) <==> agent == s.agent
  {
    var p, k := AgentPrefix(agent), AgentKey(s);
    assert k == AgentPrefix(s.agent) + s.id;
    if p <= k {
      var rest := k[|p|..];
      assert k[1..] == agent + [0] + rest && k[1..] == s.agent + [0] + s.id;
      SameField(agent, rest, s.agent, s.id);
    }
  }

  /** The first zero ends the field. */
  lemma {:induction false} SameField(x: Key, u: Key, y: Key, v: Key)
    requires 0 !in x && 0 !in y && x + [0] + u == y + [0] + v
    ensures x == y
  {
    assert (x != [] ==> x[0] in x) && (y != [] ==> y[0] in y);
    var k := x + [0] + u;
    assert k[0] == (if x == [] then 0 else x[0]) && (y + [0] + v)[0] == (if y == [] then 0 else y[0]);
    if x != [] && y != [] {
      assert k[1..] == x[1..] + [0] + u && k[1..] == y[1..] + [0] + v;
      SameField(x[1..], u, y[1..], v);
      assert x == [x[0]] + x[1..] && y == [y[0]] + y[1..];
    }
  }

  lemma EntryIsMark(data: Data, s: AgentSession)
    requires WellKept(data) && AgentKey(s) in data
    ensures data[AgentKey(s)] == Mark
  {
    IndexKeyHolds(data, s);
  }

  lemma PrefixHasZero(agent: Key, k: Key)
    requires AgentPrefix(agent) <= k
    ensures 0 in k[1..]
  {
    assert k[1..][|agent|] == 0;
  }

  lemma SessionKeyHasNoZero(data: Data, k: Key)
    requires WellKept(data) && k in data && data[k].SessionRec?
    ensures 0 !in k[1..]
  {
    assert SessionKey(data[k].session.id)[1..] == data[k].session.id;
  }

  /** The keys a listing visits are the index entries of the agent's sessions. */
  lemma VisitedIff(data: Data, agent: Key, k: Key)
    requires Indexed(data) && IsAgentId(agent)
    ensures k in KeysIn(data, AgentPrefix(agent), PrefixEnd(AgentPrefix(agent))) <==>
            exists s :: IsStored(data, s) && s.agent == agent && k == AgentKey(s)
  {
    var p := AgentPrefix(agent);
    LowPrefixIsExact(p);
    if k in data && p <= k {
      if data[k].SessionRec? {
        SessionKeyHasNoZero(data, k);
      }
      PrefixHasZero(agent, k);
      if data[k] == Mark {
        assert IsEntry(data, k);
        var s :| IsStored(data, s) && k == AgentKey(s);
        PrefixTells(agent, s);
      }
    }
    forall s | IsStored(data, s) && s.agent == agent && k == AgentKey(s) ensures k in data && p <= k {
      PrefixTells(agent, s);
    }
  }

  // ---- listing ----

  /** The keys are the entries of these sessions, one by one. */
  ghost predicate AreEntries(data: Data, agent: Key, keys: seq<Key>, sessions: seq<AgentSession>) {
    |sessions| == |keys| && forall i | 0 <= i < |keys| ::
      IsStored(data, sessions[i]) && sessions[i].agent == agent && keys[i] == AgentKey(sessions[i])
  }

  lemma {:induction false} BehindEntries(data: Data, agent: Key, keys: seq<Key>)
    requires IsAgentId(agent)
    requires forall i | 0 <= i < |keys| :: exists s :: IsStored(data, s) && s.agent == agent && keys[i] == AgentKey(s)
    ensures AreEntries(data, agent, keys, SessionsBehind(data, keys))
  {
    if keys != [] {
      var front, last := keys[..|keys| - 1], keys[|keys| - 1];
      BehindEntries(data, agent, front);
      var s :| IsStored(data, s) && s.agent == agent && last == AgentKey(s);
      IndexIdReadBack(PREFIX_SESSION, agent, s.id);
    }
  }

  lemma EntriesAscend(agent: Key, a: AgentSession, b: AgentSession)
    requires a.agent == agent == b.agent && Less(AgentKey(a), AgentKey(b))
    ensures Less(a.id, b.id)
  {
    assert AgentKey(a) == AgentPrefix(agent) + a.id && AgentKey(b) == AgentPrefix(agent) + b.id;
    CommonPrefix(AgentPrefix(agent), a.id, b.id);
  }

  ghost predicate ListsSessions(data: Data, agent: Key, sessions: seq<AgentSession>) {
    && (forall s :: s in sessions <==> IsStored(data, s) && s.agent == agent)
    && (forall i, j | 0 <= i < j < |sessions| :: Less(sessions[i].id, sessions[j].id))
  }

  lemma EntriesListed(data: Data, agent: Key, keys: seq<Key>, sessions: seq<AgentSession>)
    requires Indexed(data) && IsAgentId(agent) && AreEntries(data, agent, keys, sessions) && Sorted(keys)
    requires forall s | IsStored(data, s) && s.agent == agent :: AgentKey(s) in keys
    ensures ListsSessions(data, agent, sessions)
  {
    forall s | IsStored(data, s) && s.agent == agent ensures s in sessions {
      var i :| 0 <= i < |keys| && keys[i] == AgentKey(s);
      KeyTells(s, sessions[i]);
    }
    forall i, j | 0 <= i < j < |sessions| ensures Less(sessions[i].id, sessions[j].id) {
      EntriesAscend(agent, sessions[i], sessions[j]);
    }
  }

  /** Without a limit the listing is all stored sessions of the agent by ascending id. */
  lemma ListsAllOfAgent(data: Data, agent: Key)
    requires Indexed(data) && IsAgentId(agent)
    ensures ListsSessions(data, agent, ListedBy(data, agent, 0))
  {
    var keys := Scanned(data, AgentPrefix(agent), PrefixEnd(AgentPrefix(agent)));
    VisitsEntries(data, agent, keys);
    BehindEntries(data, agent, keys);
    forall s | IsStored(data, s) && s.agent == agent ensures AgentKey(s) in keys {
      VisitedIff(data, agent, AgentKey(s));
    }
    EntriesListed(data, agent, keys, SessionsBehind(data, keys));
  }

  lemma VisitsEntries(data: Data, agent: Key, keys: seq<Key>)
    requires Indexed(data) && IsAgentId(agent) && keys == Scanned(data, AgentPrefix(agent), PrefixEnd(AgentPrefix(agent)))
    ensures forall i | 0 <= i < |keys| :: exists s :: IsStored(data, s) && s.agent == agent && keys[i] == AgentKey(s)
    ensures Sorted(keys)
  {
    forall i | 0 <= i < |keys| ensures exists s :: IsStored(data, s) && s.agent == agent && keys[i] == AgentKey(s) {
      assert keys[i] in keys;
      VisitedIff(data, agent, keys[i]);
    }
  }

  /** With a limit it is the first of these. */
  lemma ListsFirstOfAgent(data: Data, agent: Key, limit: int)
    requires Indexed(data) && IsAgentId(agent)
    ensures ListedBy(data, agent, limit) == FirstOf(ListedBy(data, agent, 0), limit)
  {
    var keys := Scanned(data, AgentPrefix(agent), PrefixEnd(AgentPrefix(agent)));
    var few := FirstOf(keys, limit);
    VisitsEntries(data, agent, keys);
    BehindEntries(data, agent, keys);
    BehindEntries(data, agent, few);
    SameEntries(data, agent, keys, SessionsBehind(data, keys), few, SessionsBehind(data, few));
  }

  lemma SameEntries(data: Data, agent: Key, keys: seq<Key>, all: seq<AgentSession>, few: seq<Key>, first: seq<AgentSession>)
    requires IsAgentId(agent) && AreEntries(data, agent, keys, all) && AreEntries(data, agent, few, first) && few <= keys
    ensures first == all[..|few|]
  {
    forall i | 0 <= i < |few| ensures first[i] == all[i] {
      KeyTells(first[i], all[i]);
    }
  }

  // ---- what calls do to the index ----

  /** Exactly the session is new, or changed, or gone. */
  lemma EachAnswers(data: Data, s: AgentSession, id: Key)
    requires WellKept(data) && IsSessionId(s.id) && IsSessionId(id)
    ensures Answer(Created(data, s), SessionKey(id)) == if id == s.id then Some(s) else Answer(data, SessionKey(id))
    ensures Answer(Updated(data, s), SessionKey(id)) == if id == s.id then Some(s) else Answer(data, SessionKey(id))
    ensures Answer(Deleted(data, s.id), SessionKey(id)) == if id == s.id then None else Answer(data, SessionKey(id))
  {
    IndexKeyIsApart(id, s);
    assert SessionKey(id)[1..] == id && SessionKey(s.id)[1..] == s.id;
    match Answer(data, SessionKey(s.id))
    case Some(was) => IndexKeyIsApart(id, was);
    case None =>
  }

  lemma StoredAnswers(data: Data, s: AgentSession)
    requires WellKept(data)
    ensures IsStored(data, s) <==> IsSessionId(s.id) && Answer(data, SessionKey(s.id)) == Some(s)
  {
  }

  lemma CreateKeepsIndex(data: Data, s: AgentSession)
    requires Indexed(data) && IsSessionId(s.id) && IsAgentId(s.agent) && SessionKey(s.id) !in data
    ensures Indexed(Created(data, s))
  {
    var after := Created(data, s);
    IndexKeyIsApart(s.id, s);
    IndexKeyHolds(data, s);
    forall x | IsStored(after, x) ensures IsAgentId(x.agent) && AgentKey(x) in after {
      if x != s {
        EachAnswers(data, s, x.id);
        StoredAnswers(data, x);
      }
    }
    forall k | k in after && k != [] && k[0] == PREFIX_SESSION && after[k] == Mark ensures IsEntry(after, k) {
      if k == AgentKey(s) {
        assert IsStored(after, s);
      } else {
        var x :| IsStored(data, x) && k == AgentKey(x);
        IndexKeyIsApart(x.id, s);
        assert IsStored(after, x);
      }
    }
  }

  lemma DeleteKeepsIndex(data: Data, s: AgentSession)
    requires Indexed(data) && IsStored(data, s)
    ensures Indexed(Deleted(data, s.id))
  {
    var after := Deleted(data, s.id);
    assert after == data - {SessionKey(s.id)} - {AgentKey(s)};
    forall x | IsStored(after, x) ensures IsAgentId(x.agent) && AgentKey(x) in after {
      assert IsStored(data, x);
      if AgentKey(x) == AgentKey(s) {
        KeyTells(x, s);
      }
      IndexKeyIsApart(s.id, x);
    }
    forall k | k in after && k != [] && k[0] == PREFIX_SESSION && after[k] == Mark ensures IsEntry(after, k) {
      var x :| IsStored(data, x) && k == AgentKey(x);
      IndexKeyIsApart(x.id, s);
      assert x.id != s.id;
      assert SessionKey(x.id)[1..] == x.id && SessionKey(s.id)[1..] == s.id;
      assert IsStored(after, x);
    }
  }

  /** Updating writes no index entry: it keeps the index exactly when the session stored under the id has that agent. */
  lemma UpdateKeepsIndexIff(data: Data, s: AgentSession)
    requires Indexed(data) && IsSessionId(s.id) && IsAgentId(s.agent)
    ensures Indexed(Updated(data, s)) <==>
            var was := Answer(data, SessionKey(s.id));
            was.Some? && was.value.agent == s.agent
  {
    var after, was := Updated(data, s), Answer(data, SessionKey(s.id));
    assert IsStored(after, s);
    IndexKeyIsApart(s.id, s);
    if Indexed(after) {
      EntryIsMark(data, s);
      var x :| IsStored(data, x) && AgentKey(s) == AgentKey(x);
      KeyTells(s, x);
    }
    if was.Some? && was.value.agent == s.agent {
      assert SessionKey(was.value.id)[1..] == was.value.id && SessionKey(s.id)[1..] == s.id;
      UpdateInPlace(data, s, was.value);
    }
  }

  lemma UpdateInPlace(data: Data, s: AgentSession, was: AgentSession)
    requires Indexed(data) && IsSessionId(s.id) && IsStored(data, was) && was.id == s.id && was.agent == s.agent
    ensures Indexed(Updated(data, s))
  {
    var after := Updated(data, s);
    forall x | IsStored(after, x) ensures IsAgentId(x.agent) && AgentKey(x) in after {
      if x != s {
        EachAnswers(data, s, x.id);
        assert IsStored(data, x);
      }
    }
    forall k | k in after && k != [] && k[0] == PREFIX_SESSION && after[k] == Mark ensures IsEntry(after, k) {
      var x :| IsStored(data, x) && k == AgentKey(x);
      if x.id == s.id {
        assert x == was && k == AgentKey(s) && IsStored(after, s);
      } else {
        assert SessionKey(x.id)[1..] == x.id && SessionKey(s.id)[1..] == s.id;
        assert IsStored(after, x);
      }
    }
  }
}
