/** Byte strings in the lexicographic order in which the engine keeps its keys. */
module Bytes {
  type Byte = b: int | 0 <= b < 256

  type Key = seq<Byte>

  /** The bytes of an ASCII text. */
  function Ascii(text: string): (k: Key)
    ensures |k| == |text| && forall i | 0 <= i < |text| :: k[i] == (text[i] as int) % 256
  {
    seq(|text|, i requires 0 <= i < |text| => (text[i] as int) % 256)
  }

  predicate Less(a: Key, b: Key) {
    b != [] && (a == [] || a[0] < b[0] || (a[0] == b[0] && Less(a[1..], b[1..])))
  }

  lemma {:induction false} Irreflexive(a: Key)
    ensures !Less(a, a)
  {
    if a != [] {
      Irreflexive(a[1..]);
    }
  }

  lemma {:induction false} Transitive(a: Key, b: Key, c: Key)
    requires Less(a, b) && Less(b, c)
    ensures Less(a, c)
  {
    if a != [] && a[0] == b[0] == c[0] {
      Transitive(a[1..], b[1..], c[1..]);
    }
  }

  lemma {:induction false} Trichotomy(a: Key, b: Key)
    ensures Less(a, b) || a == b || Less(b, a)
  {
    if a != [] && b != [] && a[0] == b[0] {
      Trichotomy(a[1..], b[1..]);
      assert a == [a[0]] + a[1..] && b == [b[0]] + b[1..];
    }
  }

  lemma Asymmetric(a: Key, b: Key)
    requires Less(a, b)
    ensures !Less(b, a) && a != b
  {
    Irreflexive(a);
    if Less(b, a) {
      Transitive(a, b, a);
    }
  }

  /** A common prefix does not matter. */
  lemma {:induction false} CommonPrefix(p: Key, a: Key, b: Key)
    ensures Less(p + a, p + b) <==> Less(a, b)
  {
    if p == [] {
      assert p + a == a && p + b == b;
    } else {
      assert (p + a)[1..] == p[1..] + a && (p + b)[1..] == p[1..] + b;
      CommonPrefix(p[1..], a, b);
    }
  }

  /** The first difference decides, whatever follows. */
  lemma FirstDifference(p: Key, x: Byte, a: Key, y: Byte, b: Key)
    requires x < y
    ensures Less(p + [x] + a, p + [y] + b)
  {
    assert p + [x] + a == p + ([x] + a) && p + [y] + b == p + ([y] + b);
    CommonPrefix(p, [x] + a, [y] + b);
  }

  lemma ProperPrefix(p: Key, a: Key)
    requires a != []
    ensures Less(p, p + a)
  {
    CommonPrefix(p, [], a);
    assert p + [] == p;
  }

  lemma PrefixNotGreater(p: Key, k: Key)
    requires p <= k
    ensures !Less(k, p)
  {
    if p == k {
      Irreflexive(p);
    } else {
      assert k == p + k[|p|..];
      ProperPrefix(p, k[|p|..]);
      Asymmetric(p, k);
    }
  }

  // ---- sorted sequences ----

  ghost predicate Sorted(s: seq<Key>) {
    forall i, j | 0 <= i < j < |s| :: Less(s[i], s[j])
  }

  /** The one way to list a finite set of keys in order. */
  ghost predicate Lists(s: seq<Key>, keys: set<Key>) {
    Sorted(s) && forall k :: k in s <==> k in keys
  }

  predicate IsLeast(k: Key, keys: set<Key>) {
    k in keys && forall j | j in keys :: j == k || Less(k, j)
  }

  lemma {:induction false} HasLeast(keys: set<Key>)
    requires keys != {}
    ensures exists k :: IsLeast(k, keys)
  {
    var x :| x in keys;
    var rest := keys - {x};
    assert keys == rest + {x};
    if rest == {} {
      assert IsLeast(x, keys);
    } else {
      HasLeast(rest);
      var y :| IsLeast(y, rest);
      LeastOfTwo(rest, x, y);
    }
  }

  lemma LeastOfTwo(rest: set<Key>, x: Key, y: Key)
    requires IsLeast(y, rest)
    ensures IsLeast(x, rest + {x}) || IsLeast(y, rest + {x})
  {
    Trichotomy(x, y);
    if Less(x, y) {
      forall j | j in rest ensures Less(x, j) {
        if j != y {
          Transitive(x, y, j);
        }
      }
    }
  }

  lemma LeastIsUnique(keys: set<Key>, a: Key, b: Key)
    requires IsLeast(a, keys) && IsLeast(b, keys)
    ensures a == b
  {
    if a != b {
      Asymmetric(a, b);
    }
  }

  ghost function Least(keys: set<Key>): (k: Key)
    requires keys != {}
    ensures IsLeast(k, keys)
  {
    HasLeast(keys);
    var k :| IsLeast(k, keys);
    k
  }

  ghost function InOrder(keys: set<Key>): (s: seq<Key>)
    ensures Lists(s, keys)
    decreases |keys|
  {
    if keys == {} then []
    else
      var k := Least(keys);
      ListsCons(k, InOrder(keys - {k}), keys);
      [k] + InOrder(keys - {k})
  }

  lemma ListsCons(k: Key, s: seq<Key>, keys: set<Key>)
    requires IsLeast(k, keys) && Lists(s, keys - {k})
    ensures Lists([k] + s, keys)
  {
    forall j | j in s ensures Less(k, j) {
      assert j in keys - {k};
    }
  }

  lemma {:induction false} ListIsUnique(a: seq<Key>, b: seq<Key>, keys: set<Key>)
    requires Lists(a, keys) && Lists(b, keys)
    ensures a == b
  {
    if keys == {} {
      EmptyList(a);
      EmptyList(b);
    } else {
      ListHead(a, keys);
      ListHead(b, keys);
      LeastIsUnique(keys, a[0], b[0]);
      ListIsUnique(a[1..], b[1..], keys - {a[0]});
      assert a == [a[0]] + a[1..] && b == [b[0]] + b[1..];
    }
  }

  lemma EmptyList(s: seq<Key>)
    requires Lists(s, {})
    ensures s == []
  {
    if s != [] {
      HasSome(s);
    }
  }

  lemma HasSome(s: seq<Key>)
    requires s != []
    ensures exists k :: k in s
  {
    assert s[0] in s;
  }

  lemma ListHead(s: seq<Key>, keys: set<Key>)
    requires Lists(s, keys) && keys != {}
    ensures s != [] && IsLeast(s[0], keys) && Lists(s[1..], keys - {s[0]})
  {
    var k :| k in keys;
    assert k in s;
    var t := s[1..];
    assert s == [s[0]] + t;
    forall j | j in t ensures Less(s[0], j) && j != s[0] {
      var i :| 0 <= i < |t| && t[i] == j;
      assert s[i + 1] == j;
      Asymmetric(s[0], j);
    }
    forall j | j in keys ensures j == s[0] || Less(s[0], j) {
      assert j in s;
    }
    forall i, j | 0 <= i < j < |t| ensures Less(t[i], t[j]) {
      assert t[i] == s[i + 1] && t[j] == s[j + 1];
    }
  }
}
