/** Sessions behind a cache (internal/agent/session.go). */
module Session {
  import opened Bytes
  import opened KeyEncode
  import opened Engine
  import opened Cache

  // state stands for everything in a session besides its id and agent.
  datatype AgentSession = AgentSession(id: Key, agent: Key, state: Key)

  // Mark is the single byte under an index key.
  datatype Rec = SessionRec(session: AgentSession) | Mark

  type Data = map<Key, Rec>

  /** SessionFromJSON. */
  function AsSession(rec: Rec): Option<AgentSession> {
    if rec.SessionRec? then Some(rec.session) else None
  }

  function SessionKey(id: Key): Key { EncodeKey(PREFIX_SESSION, id) }

  function AgentKey(s: AgentSession): Key { EncodeIndexKey(PREFIX_SESSION, s.agent, s.id) }

  /** What the engine alone answers for a key. */
  function Answer(data: Data, k: Key): Option<AgentSession> {
    if k in data then AsSession(data[k]) else None
  }

  // ---- what each call does to the engine ----

  function Created(data: Data, s: AgentSession): Data {
    data[SessionKey(s.id) := SessionRec(s)][AgentKey(s) := Mark]
  }

  function Updated(data: Data, s: AgentSession): Data { data[SessionKey(s.id) := SessionRec(s)] }

  function Deleted(data: Data, id: Key): Data {
    match Answer(data, SessionKey(id))
    case Some(s) => data - {SessionKey(id)} - {AgentKey(s)}
    case None => data
  }

  /** What the index entries of an agent's sessions begin with. */
  function AgentPrefix(agent: Key): Key { EncodeIndexKey(PREFIX_SESSION, agent, []) }

  /** The sessions behind these index entries; an entry without one is passed over. */
  function SessionsBehind(data: Data, keys: seq<Key>): seq<AgentSession> {
    if keys == [] then []
    else
      var front, last := SessionsBehind(data, keys[..|keys| - 1]), Answer(data, SessionKey(DecodeIndexId(keys[|keys| - 1])));
      if last.Some? then front + [last.value] else front
  }

  function FirstOf<T>(s: seq<T>, limit: int): seq<T> {
    if 0 < limit < |s| then s[..limit] else s
  }

  ghost function ListedBy(data: Data, agent: Key, limit: int): seq<AgentSession> {
    SessionsBehind(data, FirstOf(Scanned(data, AgentPrefix(agent), PrefixEnd(AgentPrefix(agent))), limit))
  }

  /** Session ids hold no zero, the separator of index keys. */
  predicate IsSessionId(id: Key) { 0 !in id }

  ghost predicate WellKept(data: Data) {
    forall k | k in data && data[k].SessionRec? :: k == SessionKey(data[k].session.id) && IsSessionId(data[k].session.id)
  }

  /** The cache answers as the engine does, wherever it answers. */
  ghost predicate Coherent(data: Data, cached: map<Key, Rec>) {
    forall k | k in cached :: AsSession(cached[k]) == Answer(data, k)
  }

  lemma IndexKeyIsApart(id: Key, s: AgentSession)
    requires IsSessionId(id)
    ensures AgentKey(s) != SessionKey(id)
  {
    assert AgentKey(s)[1..][|s.agent|] == 0;
    assert SessionKey(id)[1..] == id;
  }

  /** An index entry takes no session's place. */
  lemma IndexKeyHolds(data: Data, s: AgentSession)
    requires WellKept(data)
    ensures Answer(data, AgentKey(s)) == None
  {
    var k := AgentKey(s);
    if k in data && data[k].SessionRec? {
      IndexKeyIsApart(data[k].session.id, s);
    }
  }

  lemma CreateKeeps(data: Data, cached: map<Key, Rec>, s: AgentSession, keys: seq<Key>)
    requires WellKept(data) && Coherent(data, cached) && IsSessionId(s.id)
    ensures WellKept(Created(data, s))
    ensures Coherent(Created(data, s), Kept(cached[SessionKey(s.id) := SessionRec(s)], keys))
  {
    IndexKeyIsApart(s.id, s);
    IndexKeyHolds(data, s);
  }

  lemma UpdateKeeps(data: Data, cached: map<Key, Rec>, s: AgentSession, keys: seq<Key>)
    requires WellKept(data) && Coherent(data, cached) && IsSessionId(s.id)
    ensures WellKept(Updated(data, s))
    ensures Coherent(Updated(data, s), Kept(cached[SessionKey(s.id) := SessionRec(s)], keys))
  {
  }

  lemma DeleteKeeps(data: Data, cached: map<Key, Rec>, id: Key)
    requires WellKept(data) && Coherent(data, cached) && Answer(data, SessionKey(id)).Some?
    ensures WellKept(Deleted(data, id)) && Coherent(Deleted(data, id), cached - {SessionKey(id)})
  {
    IndexKeyHolds(data, Answer(data, SessionKey(id)).value);
  }

  class SessionManager {
    const engine: Store<Rec>
    const cache: LruCache<Rec>

    ghost predicate Valid()
      reads this, engine, cache, cache.Repr
    {
      && engine !in cache.Repr && cache.Valid()
      && WellKept(engine.data) && Coherent(engine.data, cache.Contents())
    }

    constructor (engine: Store<Rec>, cache: LruCache<Rec>)
      requires engine !in cache.Repr && cache.Valid() && WellKept(engine.data) && Coherent(engine.data, cache.Contents())
      ensures Valid() && this.engine == engine && this.cache == cache
    {
      this.engine, this.cache := engine, cache;
    }

    /** The id is a new UUID. */
    method Create(id: Key, agent: Key, state: Key) returns (s: AgentSession)
      requires Valid() && IsSessionId(id)
      modifies engine, cache.Repr
      ensures Valid() && fresh(cache.Repr - old(cache.Repr))
      ensures s == AgentSession(id, agent, state) && engine.data == Created(old(engine.data), s)
    {
      s := AgentSession(id, agent, state);
      ghost var data, cached := engine.data, cache.Contents();
      engine.Set(SessionKey(id), SessionRec(s));
      engine.Set(AgentKey(s), Mark);
      assert engine.data == Created(data, s) && cache.Contents() == cached;
      cache.Set(SessionKey(id), SessionRec(s));
      CreateKeeps(data, cached, s, cache.Keys());
    }

    /** With the cache as without it: what the engine holds. */
    method Get(id: Key) returns (s: Option<AgentSession>)
      requires Valid()
      modifies cache.Repr
      ensures Valid() && fresh(cache.Repr - old(cache.Repr))
      ensures s == Answer(engine.data, SessionKey(id))
    {
      var key := SessionKey(id);
      var cached := cache.Get(key);
      if cached.Some? {
        return AsSession(cached.value);
      }
      var stored := engine.Get(key);
      if stored.None? {
        return None;
      }
      cache.Set(key, stored.value);
      s := AsSession(stored.value);
    }

    method Update(s: AgentSession)
      requires Valid() && IsSessionId(s.id)
      modifies engine, cache.Repr
      ensures Valid() && fresh(cache.Repr - old(cache.Repr))
      ensures engine.data == Updated(old(engine.data), s)
    {
      engine.Set(SessionKey(s.id), SessionRec(s));
      cache.Set(SessionKey(s.id), SessionRec(s));
      UpdateKeeps(old(engine.data), old(cache.Contents()), s, cache.Keys());
    }

    method Delete(id: Key) returns (ok: bool)
      requires Valid()
      modifies engine, cache.Repr
      ensures Valid() && fresh(cache.Repr - old(cache.Repr))
      ensures ok <==> old(Answer(engine.data, SessionKey(id))).Some?
      ensures engine.data == Deleted(old(engine.data), id)
    {
      var s := Get(id);
      if s.None? {
        return false;
      }
      DeleteKeeps(engine.data, cache.Contents(), id);
      engine.Remove(SessionKey(id));
      engine.Remove(AgentKey(s.value));
      cache.Delete(SessionKey(id));
      ok := true;
    }

    method UpdateState(id: Key, state: Key) returns (ok: bool)
      requires Valid()
      modifies engine, cache.Repr
      ensures Valid() && fresh(cache.Repr - old(cache.Repr))
      ensures var was := old(Answer(engine.data, SessionKey(id)));
              && (ok <==> was.Some?)
              && engine.data == if ok then Updated(old(engine.data), was.value.(state := state)) else old(engine.data)
    {
      var s := Get(id);
      if s.None? {
        return false;
      }
      assert IsSessionId(s.value.id) by {
        assert SessionKey(id) in engine.data && engine.data[SessionKey(id)].SessionRec?;
      }
      Update(s.value.(state := state));
      ok := true;
    }

    /** The agent's sessions, found through its index entries; a limit of 0 is none. */
    method ListByAgent(agent: Key, limit: int) returns (sessions: seq<AgentSession>)
      requires Valid()
      modifies cache.Repr
      ensures Valid() && fresh(cache.Repr - old(cache.Repr))
      ensures sessions == ListedBy(engine.data, agent, limit)
    {
      var scanned := engine.PrefixScan(AgentPrefix(agent));
      var keys := FirstOf(scanned, limit);
      sessions := [];
      for i := 0 to |keys|
        invariant Valid() && fresh(cache.Repr - old(cache.Repr)) && unchanged(engine)
        invariant sessions == SessionsBehind(engine.data, keys[..i])
      {
        var s := Get(DecodeIndexId(keys[i]));
        assert keys[..i + 1][..i] == keys[..i];
        if s.Some? {
          sessions := sessions + [s.value];
        }
      }
      assert keys[..|keys|] == keys;
    }
  }
}
