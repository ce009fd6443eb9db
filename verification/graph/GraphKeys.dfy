/** Keys of nodes, edges and their index entries (internal/graph/store.go). */
module GraphKeys {
  import opened Bytes
  import opened KeyEncode

  const EDGE: Key := [0x65, 0x64, 0x67, 0x65, 0x3A]
  const OUT: Key := [0x6F, 0x75, 0x74, 0x3A]
  const IN: Key := [0x69, 0x6E, 0x3A]
  const TYPE: Key := [0x74, 0x79, 0x70, 0x65, 0x3A]
  const NAME: Key := [0x6E, 0x61, 0x6D, 0x65, 0x3A]
  const EDGE_TYPE: Key := [0x65, 0x74, 0x79, 0x70, 0x65, 0x3A]

  function NodeKey(id: Key): Key { EncodeKey(PREFIX_GRAPH, id) }

  function EdgeKey(id: Key): Key { EncodeKey(PREFIX_GRAPH, EDGE + id) }

  function OutKey(from: Key, id: Key): Key { EncodeIndexKey(PREFIX_GRAPH, OUT + from, id) }

  function InKey(to: Key, id: Key): Key { EncodeIndexKey(PREFIX_GRAPH, IN + to, id) }

  function TypeKey(t: Key, id: Key): Key { EncodeIndexKey(PREFIX_GRAPH, TYPE + t, id) }

  function NameKey(name: Key, id: Key): Key { EncodeIndexKey(PREFIX_GRAPH, NAME + name, id) }

  function EdgeTypeKey(t: Key, id: Key): Key { EncodeIndexKey(PREFIX_GRAPH, EDGE_TYPE + t, id) }

  /** Without the separator of index keys. */
  predicate ZeroFree(s: Key) { 0 !in s }

  /** Node ids the store keeps apart from everything else. */
  predicate IsNodeId(id: Key) { id != [] && ZeroFree(id) && !(EDGE <= id) }

  predicate IsEdgeId(id: Key) { id != [] && ZeroFree(id) }

  // ---- keys of different kinds differ ----

  /** The two bytes behind the prefix tell index keys and edge keys apart. */
  lemma Tags(a: Key, id: Key)
    ensures EdgeKey(id)[1] == 0x65 && EdgeKey(id)[2] == 0x64
    ensures OutKey(a, id)[1] == 0x6F && InKey(a, id)[1] == 0x69 && TypeKey(a, id)[1] == 0x74 && NameKey(a, id)[1] == 0x6E
    ensures EdgeTypeKey(a, id)[1] == 0x65 && EdgeTypeKey(a, id)[2] == 0x74
  {
  }

  lemma IndexKeyHasZero(prefix: Byte, field: Key, id: Key)
    requires prefix != 0
    ensures 0 in EncodeIndexKey(prefix, field, id)[1..]
  {
    assert EncodeIndexKey(prefix, field, id)[1..][|field|] == 0;
  }

  lemma NodeKeyIsApart(node: Key, a: Key, id: Key)
    requires IsNodeId(node)
    ensures NodeKey(node) != EdgeKey(id) && NodeKey(node) != OutKey(a, id) && NodeKey(node) != InKey(a, id)
    ensures NodeKey(node) != TypeKey(a, id) && NodeKey(node) != NameKey(a, id) && NodeKey(node) != EdgeTypeKey(a, id)
  {
    assert NodeKey(node)[1..] == node;
    assert EdgeKey(id)[1..] == EDGE + id;
    IndexKeyHasZero(PREFIX_GRAPH, OUT + a, id);
    IndexKeyHasZero(PREFIX_GRAPH, IN + a, id);
    IndexKeyHasZero(PREFIX_GRAPH, TYPE + a, id);
    IndexKeyHasZero(PREFIX_GRAPH, NAME + a, id);
    IndexKeyHasZero(PREFIX_GRAPH, EDGE_TYPE + a, id);
  }

  lemma EdgeKeyTells(a: Key, b: Key)
    ensures EdgeKey(a) == EdgeKey(b) ==> a == b
  {
    assert EdgeKey(a)[6..] == a && EdgeKey(b)[6..] == b;
  }

  lemma NodeKeyTells(a: Key, b: Key)
    ensures NodeKey(a) == NodeKey(b) ==> a == b
  {
    assert NodeKey(a)[1..] == a && NodeKey(b)[1..] == b;
  }

  /** Where neither half of one side holds a zero, the separators meet. */
  lemma ZeroSplits(a: Key, x: Key, b: Key, y: Key)
    requires a + [0] + x == b + [0] + y && ZeroFree(b) && ZeroFree(y)
    ensures a == b && x == y
  {
    var s := a + [0] + x;
    forall i | 0 <= i < |s| && i != |b| ensures s[i] != 0 {
      if i < |b| {
        assert b[i] in b;
      } else {
        assert y[i - |b| - 1] in y;
      }
    }
    assert s[|a|] == 0;
    assert s[..|a|] == a && s[..|b|] == b && s[|a| + 1..] == x && s[|b| + 1..] == y;
  }

  lemma OutKeyTells(a: Key, x: Key, b: Key, y: Key)
    requires OutKey(a, x) == OutKey(b, y) && ZeroFree(b) && ZeroFree(y)
    ensures a == b && x == y
  {
    assert OutKey(a, x)[5..] == a + [0] + x && OutKey(b, y)[5..] == b + [0] + y;
    ZeroSplits(a, x, b, y);
  }

  lemma InKeyTells(a: Key, x: Key, b: Key, y: Key)
    requires InKey(a, x) == InKey(b, y) && ZeroFree(b) && ZeroFree(y)
    ensures a == b && x == y
  {
    assert InKey(a, x)[4..] == a + [0] + x && InKey(b, y)[4..] == b + [0] + y;
    ZeroSplits(a, x, b, y);
  }
}
