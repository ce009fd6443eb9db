/** Primary keys and prefix ranges (internal/storage/keyencode.go). */
module KeyEncode {
  import opened Bytes

  datatype Bound = Unbounded | Before(key: Key)

  const PREFIX_SESSION: Byte := 0x01
  const PREFIX_INDEX: Byte := 0x11
  const PREFIX_GRAPH: Byte := 0x20
  const PREFIX_SYSTEM: Byte := 0xFF

  function EncodeKey(prefix: Byte, id: Key): Key {
    [prefix] + id
  }

  function EncodeIndexKey(prefix: Byte, field: Key, id: Key): Key {
    [prefix] + field + [0] + id
  }

  /** What follows the first zero from a position on. */
  function AfterZero(key: Key, from: nat): Key
    decreases |key| - from
  {
    if from >= |key| then [] else if key[from] == 0 then key[from + 1..] else AfterZero(key, from + 1)
  }

  function DecodeIndexId(key: Key): Key {
    if |key| < 3 then [] else AfterZero(key, 1)
  }

  method DecodeIndexID(key: Key) returns (id: Key)
    ensures id == DecodeIndexId(key)
  {
    if |key| < 3 {
      return [];
    }
    for i := 1 to |key|
      invariant AfterZero(key, i) == AfterZero(key, 1)
    {
      if key[i] == 0 {
        return key[i + 1..];
      }
    }
    id := [];
  }

  lemma {:induction false} ZeroFound(key: Key, from: nat, at: nat)
    requires from <= at < |key| && key[at] == 0 && forall i | from <= i < at :: key[i] != 0
    ensures AfterZero(key, from) == key[at + 1..]
    decreases at - from
  {
    if from < at {
      ZeroFound(key, from + 1, at);
    }
  }

  /** The id comes back out of an index key whose field has no zero. */
  lemma IndexIdReadBack(prefix: Byte, field: Key, id: Key)
    requires 0 !in field
    ensures DecodeIndexId(EncodeIndexKey(prefix, field, id)) == id
  {
    var key := EncodeIndexKey(prefix, field, id);
    forall i | 1 <= i < |field| + 1 ensures key[i] != 0 {
      assert key[i] == field[i - 1] && field[i - 1] in field;
    }
    ZeroFound(key, 1, |field| + 1);
    assert key[|field| + 2..] == id;
  }

  /** The end of the range of a prefix: its last byte below 0xFF, incremented, and zeros after it. */
  function PrefixEnd(prefix: Key): (end: Bound)
  {
    if prefix == [] then Unbounded
    else
      var front, last := prefix[..|prefix| - 1], prefix[|prefix| - 1];
      if last < 0xFF then Before(front + [last + 1])
      else
        match PrefixEnd(front)
        case Unbounded => Unbounded
        case Before(e) => Before(e + [0])
  }

  predicate InRange(k: Key, start: Key, end: Bound) {
    !Less(k, start) && (end.Before? ==> Less(k, end.key))
  }

  method PrefixRange(prefix: Key) returns (start: Key, end: Bound)
    ensures start == prefix && end == PrefixEnd(prefix)
  {
    start := prefix;
    var bytes := prefix;
    var i := |bytes| - 1;
    assert prefix[..|prefix|] == prefix;
    CarryNone(PrefixEnd(prefix));
    while i >= 0
      invariant -1 <= i < |prefix| && |bytes| == |prefix|
      invariant bytes == prefix[..i + 1] + Zeros(|prefix| - 1 - i)
      invariant PrefixEnd(prefix) == Carried(PrefixEnd(prefix[..i + 1]), |prefix| - 1 - i)
    {
      var front := prefix[..i + 1];
      assert front[..i] == prefix[..i] && bytes[i] == front[i];
      if bytes[i] < 0xFF {
        var carried := bytes[..i] + [bytes[i] + 1] + bytes[i + 1..];
        assert carried == prefix[..i] + [prefix[i] + 1] + Zeros(|prefix| - 1 - i);
        return start, Before(carried);
      }
      bytes := bytes[..i] + [0] + bytes[i + 1..];
      CarryMore(PrefixEnd(prefix[..i]), |prefix| - 1 - i);
      assert bytes == prefix[..i] + Zeros(|prefix| - i);
      i := i - 1;
    }
    assert prefix[..0] == [];
    return start, Unbounded;
  }

  function Zeros(n: nat): (z: Key)
    ensures |z| == n
  {
    if n == 0 then [] else [0] + Zeros(n - 1)
  }

  function Carried(end: Bound, n: nat): Bound {
    if end.Unbounded? then Unbounded else Before(end.key + Zeros(n))
  }

  lemma CarryNone(end: Bound)
    ensures Carried(end, 0) == end
  {
    if end.Before? {
      assert end.key + Zeros(0) == end.key;
    }
  }

  lemma CarryMore(end: Bound, n: nat)
    ensures Carried(if end.Unbounded? then Unbounded else Before(end.key + [0]), n) == Carried(end, n + 1)
  {
    if end.Before? {
      assert end.key + [0] + Zeros(n) == end.key + ([0] + Zeros(n));
    }
  }

  predicate AllOnes(prefix: Key) {
    forall b | b in prefix :: b == 0xFF
  }

  lemma {:induction false} UnboundedIffAllOnes(prefix: Key)
    ensures PrefixEnd(prefix).Unbounded? <==> AllOnes(prefix)
  {
    if prefix != [] {
      var front, last := prefix[..|prefix| - 1], prefix[|prefix| - 1];
      UnboundedIffAllOnes(front);
      assert prefix == front + [last];
      OnesSnoc(front, last);
    }
  }

  lemma OnesSnoc(front: Key, last: Byte)
    ensures AllOnes(front + [last]) <==> AllOnes(front) && last == 0xFF
  {
    var all := front + [last];
    if AllOnes(all) {
      forall b | b in front ensures b == 0xFF {
        assert b in all;
      }
      assert last in all;
    }
  }

  /** Below the end and not below the prefix, exactly when the prefix is really one. */
  lemma {:induction false} RangeOfIncremented(front: Key, last: Byte, k: Key)
    requires last < 0xFF
    ensures InRange(k, front + [last], Before(front + [last + 1])) <==> front + [last] <= k
  {
    if front == [] {
      assert front + [last] == [last] && front + [last + 1] == [last + 1];
      if k != [] {
        assert [last] <= k <==> k[0] == last;
        assert Less(k, [last]) <==> k[0] < last by {
          assert [last][1..] == [];
        }
        assert Less(k, [last + 1]) <==> k[0] < last + 1 by {
          assert [last + 1][1..] == [];
        }
      }
    } else {
      var p, e := front + [last], front + [last + 1];
      assert p[1..] == front[1..] + [last] && e[1..] == front[1..] + [last + 1];
      if k != [] && k[0] == front[0] {
        RangeOfIncremented(front[1..], last, k[1..]);
        assert p <= k <==> p[1..] <= k[1..];
      }
    }
  }

  lemma {:induction false} RangeOfOnes(prefix: Key, k: Key)
    requires AllOnes(prefix)
    ensures InRange(k, prefix, Unbounded) <==> prefix <= k
  {
    if prefix != [] {
      assert prefix[0] in prefix;
      if k != [] && k[0] == 0xFF {
        assert forall b | b in prefix[1..] :: b in prefix;
        RangeOfOnes(prefix[1..], k[1..]);
        assert prefix <= k <==> prefix[1..] <= k[1..];
      }
    }
  }

  /** The range of a prefix holds exactly the keys that start with it. */
  ghost predicate RangeIsExact(prefix: Key) {
    forall k :: InRange(k, prefix, PrefixEnd(prefix)) <==> prefix <= k
  }

  /** A carry leaves zeros behind, and lets in the incremented key without them. */
  lemma CarryLetsIn(prefix: Key)
    requires prefix != [] && prefix[|prefix| - 1] == 0xFF && !AllOnes(prefix)
    ensures !RangeIsExact(prefix)
  {
    UnboundedIffAllOnes(prefix);
    var front := prefix[..|prefix| - 1];
    var k := PrefixEnd(front).key;
    assert PrefixEnd(prefix) == Before(k + [0]);
    ProperPrefix(k, [0]);
    PrefixBelowEnd(front);
    assert prefix == front + [0xFF];
    BelowExtends(front, k, [0xFF]);
    Asymmetric(prefix, k);
    PrefixEndDiffers(front);
    assert InRange(k, prefix, PrefixEnd(prefix)) && !(prefix <= k);
  }

  lemma {:induction false} PrefixEndDiffers(p: Key)
    requires PrefixEnd(p).Before?
    ensures |PrefixEnd(p).key| == |p|
  {
    var front, last := p[..|p| - 1], p[|p| - 1];
    if last == 0xFF {
      PrefixEndDiffers(front);
    }
  }

  /** Nothing that starts with p reaches the end. */
  lemma {:induction false} PrefixBelowEnd(p: Key)
    requires PrefixEnd(p).Before?
    ensures forall t :: Less(p + t, PrefixEnd(p).key)
  {
    var front, last := p[..|p| - 1], p[|p| - 1];
    assert p == front + [last];
    forall t ensures Less(p + t, PrefixEnd(p).key) {
      if last < 0xFF {
        FirstDifference(front, last, t, last + 1, []);
        assert front + [last + 1] + [] == front + [last + 1];
      } else {
        PrefixBelowEnd(front);
        var e := PrefixEnd(front).key;
        assert p + t == front + ([last] + t);
        ProperPrefix(e, [0]);
        Transitive(p + t, e, e + [0]);
      }
    }
  }

  lemma BelowExtends(front: Key, e: Key, t: Key)
    requires forall t :: Less(front + t, e)
    ensures Less(front + t, e)
  {
  }

  /** PrefixRange is exact just when the last byte is below 0xFF or there is no other byte. */
  lemma PrefixRangeIsExactIff(prefix: Key)
    ensures RangeIsExact(prefix) <==> AllOnes(prefix) || prefix[|prefix| - 1] < 0xFF
  {
    UnboundedIffAllOnes(prefix);
    if AllOnes(prefix) {
      forall k ensures InRange(k, prefix, PrefixEnd(prefix)) <==> prefix <= k {
        RangeOfOnes(prefix, k);
      }
    } else if prefix[|prefix| - 1] < 0xFF {
      LowPrefixIsExact(prefix);
    } else {
      CarryLetsIn(prefix);
    }
  }

  lemma LowPrefixIsExact(prefix: Key)
    requires prefix != [] && prefix[|prefix| - 1] < 0xFF
    ensures RangeIsExact(prefix)
  {
    var front, last := prefix[..|prefix| - 1], prefix[|prefix| - 1];
    assert prefix == front + [last];
    forall k ensures InRange(k, prefix, PrefixEnd(prefix)) <==> prefix <= k {
      RangeOfIncremented(front, last, k);
    }
  }
}
