/** The LRU cache (internal/storage/cache.go): a map into a list kept in the order of use. */
module Cache {
  import opened Bytes
  import opened Engine

  /** The keys without k. */
  function Without(keys: seq<Key>, k: Key): (rest: seq<Key>)
    ensures |rest| <= |keys| && k !in rest && forall j :: j in rest <==> j in keys && j != k
  {
    if keys == [] then []
    else if keys[0] == k then Without(keys[1..], k)
    else [keys[0]] + Without(keys[1..], k)
  }

  function Top(keys: seq<Key>, n: nat): seq<Key> {
    if |keys| <= n then keys else keys[..n]
  }

  /** The order after a use of k, with room for n keys. */
  function Used(keys: seq<Key>, k: Key, n: nat): seq<Key> {
    Top([k] + Without(keys, k), n)
  }

  function Picked<V>(m: map<Key, V>, keys: set<Key>): map<Key, V> {
    map k | k in m && k in keys :: m[k]
  }

  /** The part of a map that these keys select. */
  function Kept<V>(m: map<Key, V>, keys: seq<Key>): map<Key, V> {
    map k | k in m && k in keys :: m[k]
  }

  /** An entry of the list; its value is overwritten in place. */
  class Entry<V> {
    const key: Key
    var value: V

    constructor (key: Key, value: V)
      ensures this.key == key && this.value == value
    {
      this.key, this.value := key, value;
    }
  }

  function KeysOf<V>(entries: seq<Entry<V>>): (keys: seq<Key>)
    ensures |keys| == |entries| && forall i | 0 <= i < |entries| :: keys[i] == entries[i].key
  {
    seq(|entries|, i requires 0 <= i < |entries| => entries[i].key)
  }

  class LruCache<V> {
    const maxSize: int
    var items: map<Key, Entry<V>>
    var order: seq<Entry<V>>
    ghost var Repr: set<object>

    ghost predicate Valid()
      reads this
    {
      && this in Repr && (forall e | e in order :: e in Repr)
      && Linked(items, order) && |order| <= Capacity()
    }

    /** A size below one still lets one entry stay. */
    function Capacity(): nat { if maxSize < 1 then 1 else maxSize }

    /** The keys, most recently used first. */
    ghost function Keys(): seq<Key>
      reads this
    {
      KeysOf(order)
    }

    ghost function Contents(): map<Key, V>
      reads this, Repr
      requires Valid()
    {
      map k | k in items :: items[k].value
    }

    constructor (maxSize: int)
      ensures Valid() && Keys() == [] && Contents() == map[] && fresh(Repr) && this.maxSize == maxSize
    {
      this.maxSize, items, order := maxSize, map[], [];
      Repr := {this};
    }

    method Get(key: Key) returns (value: Option<V>)
      requires Valid()
      modifies this
      ensures Valid() && Repr == old(Repr) && Contents() == old(Contents())
      ensures value == if key in Contents() then Some(Contents()[key]) else None
      ensures Keys() == if value.Some? then Used(old(Keys()), key, Capacity()) else old(Keys())
    {
      if key in items {
        MoveToFront(items[key]);
        return Some(items[key].value);
      }
      value := None;
    }

    method MoveToFront(e: Entry<V>)
      requires Valid() && e in order
      modifies `order
      ensures Valid() && order == [e] + Apart(old(order), e) && Keys() == Used(old(Keys()), e.key, Capacity())
    {
      MovedFront(items, order, e);
      order := [e] + Apart(order, e);
    }

    method Set(key: Key, value: V)
      requires Valid()
      modifies Repr
      ensures Valid() && fresh(Repr - old(Repr))
      ensures Keys() == Used(old(Keys()), key, Capacity())
      ensures Contents() == Kept(old(Contents())[key := value], Keys())
    {
      if key in items {
        Overwrite(items[key], value);
      } else {
        Add(key, value);
      }
    }

    method Overwrite(e: Entry<V>, value: V)
      requires Valid() && e in order
      modifies `order, e
      ensures Valid() && Keys() == Used(old(Keys()), e.key, Capacity())
      ensures Contents() == Kept(old(Contents())[e.key := value], Keys())
    {
      MoveToFront(e);
      e.value := value;
      KeptListed(items, order, old(Contents())[e.key := value], Contents());
    }

    method Add(key: Key, value: V)
      requires Valid() && key !in items
      modifies this
      ensures Valid() && fresh(Repr - old(Repr)) && Keys() == Used(old(Keys()), key, Capacity())
      ensures Contents() == Kept(old(Contents())[key := value], Keys())
    {
      NotListed(items, order, key);
      UsedAfresh(Keys(), key, Capacity());
      if |order| >= maxSize {
        Evict();
      }
      Insert(key, value);
      KeptListed(items, order, old(Contents())[key := value], Contents());
    }

    method Insert(key: Key, value: V)
      requires Valid() && key !in items && |order| < Capacity()
      modifies this
      ensures Valid() && fresh(Repr - old(Repr)) && Keys() == [key] + old(Keys())
      ensures Contents() == old(Contents())[key := value]
    {
      var e := new Entry(key, value);
      Pushed(items, order, e);
      order := [e] + order;
      items := items[key := e];
      Repr := Repr + {e};
    }

    method Delete(key: Key)
      requires Valid()
      modifies `order, `items
      ensures Valid() && Keys() == Without(old(Keys()), key)
      ensures items == old(items) - {key} && Contents() == old(Contents()) - {key}
    {
      if key in items {
        RemoveElement(items[key]);
      } else {
        NotListed(items, order, key);
      }
    }

    /** Removes the entry at the back. */
    method Evict()
      requires Valid()
      modifies `order, `items
      ensures Valid() && Keys() == if old(Keys()) == [] then [] else old(Keys())[..|old(Keys())| - 1]
      ensures items.Keys <= old(items.Keys) && Contents() == Picked(old(Contents()), items.Keys)
    {
      if order != [] {
        LastListed(items, order);
        RemoveElement(order[|order| - 1]);
      }
    }

    method RemoveElement(e: Entry<V>)
      requires Valid() && e in order
      modifies `order, `items
      ensures Valid() && items == old(items) - {e.key} && Keys() == Without(old(Keys()), e.key)
    {
      Removed(items, order, e);
      order := Apart(order, e);
      items := items - {e.key};
    }
  }

  /** The list without an entry. */
  function Apart<V>(order: seq<Entry<V>>, e: Entry<V>): (rest: seq<Entry<V>>)
    ensures |rest| <= |order|
    ensures (forall x | x in rest :: x in order && x != e) && forall x | x in order && x != e :: x in rest
  {
    if order == [] then []
    else if order[0] == e then Apart(order[1..], e)
    else [order[0]] + Apart(order[1..], e)
  }

  /** The map and the list hold the same entries, one for each key. */
  ghost predicate Linked<V>(items: map<Key, Entry<V>>, order: seq<Entry<V>>) {
    && (forall e | e in order :: e.key in items && items[e.key] == e)
    && (forall k | k in items :: items[k] in order && items[k].key == k)
    && (forall i, j | 0 <= i < j < |order| :: !SameKey(order, i, j))
  }

  predicate SameKey<V>(order: seq<Entry<V>>, i: nat, j: nat)
    requires i < |order| && j < |order|
  {
    order[i].key == order[j].key
  }

  ghost predicate Unique(keys: seq<Key>) { forall i, j | 0 <= i < j < |keys| :: keys[i] != keys[j] }

  lemma {:induction false} WithoutAbsent(keys: seq<Key>, k: Key)
    requires k !in keys
    ensures Without(keys, k) == keys
  {
    if keys != [] {
      WithoutAbsent(keys[1..], k);
    }
  }

  lemma {:induction false} WithoutKeeps(keys: seq<Key>, k: Key)
    requires Unique(keys)
    ensures Unique(Without(keys, k)) && |Without(keys, k)| == |keys| - (if k in keys then 1 else 0)
  {
    if keys != [] {
      WithoutKeeps(keys[1..], k);
      if keys[0] == k {
        WithoutAbsent(keys[1..], k);
      } else {
        var rest := Without(keys[1..], k);
        forall j | 0 <= j < |rest| ensures rest[j] != keys[0] {
          assert rest[j] in keys[1..];
        }
      }
    }
  }

  lemma {:induction false} ApartKeys<V>(order: seq<Entry<V>>, e: Entry<V>)
    requires Unique(KeysOf(order)) && e in order
    ensures KeysOf(Apart(order, e)) == Without(KeysOf(order), e.key)
  {
    assert KeysOf(order)[1..] == KeysOf(order[1..]);
    if order[0] == e {
      ApartAbsent(order[1..], e);
      WithoutAbsent(KeysOf(order[1..]), e.key);
    } else {
      ApartKeys(order[1..], e);
      assert KeysOf([order[0]] + Apart(order[1..], e)) == [order[0].key] + KeysOf(Apart(order[1..], e));
      var i :| 0 <= i < |order[1..]| && order[1..][i] == e;
      assert KeysOf(order)[0] != KeysOf(order)[i + 1];
    }
  }

  lemma {:induction false} ApartAbsent<V>(order: seq<Entry<V>>, e: Entry<V>)
    requires forall i | 0 <= i < |order| :: order[i].key != e.key
    ensures Apart(order, e) == order
  {
    if order != [] {
      ApartAbsent(order[1..], e);
    }
  }

  lemma LinkedKeys<V>(items: map<Key, Entry<V>>, order: seq<Entry<V>>)
    requires Linked(items, order)
    ensures Unique(KeysOf(order)) && forall k :: k in KeysOf(order) <==> k in items
  {
    forall k | k in items ensures k in KeysOf(order) {
      var i :| 0 <= i < |order| && order[i] == items[k];
      assert KeysOf(order)[i] == k;
    }
    forall i, j | 0 <= i < j < |order| ensures KeysOf(order)[i] != KeysOf(order)[j] {
      assert !SameKey(order, i, j);
    }
  }

  lemma NotListed<V>(items: map<Key, Entry<V>>, order: seq<Entry<V>>, k: Key)
    requires Linked(items, order) && k !in items
    ensures Without(KeysOf(order), k) == KeysOf(order)
  {
    LinkedKeys(items, order);
    WithoutAbsent(KeysOf(order), k);
  }

  lemma LastListed<V>(items: map<Key, Entry<V>>, order: seq<Entry<V>>)
    requires Linked(items, order) && order != []
    ensures Without(KeysOf(order), order[|order| - 1].key) == KeysOf(order)[..|order| - 1]
  {
    LinkedKeys(items, order);
    WithoutLast(KeysOf(order));
  }

  lemma UsedAfresh(keys: seq<Key>, k: Key, n: nat)
    requires Without(keys, k) == keys && |keys| <= n && n > 0
    ensures Used(keys, k, n) == [k] + if |keys| < n then keys else keys[..|keys| - 1]
  {
  }

  lemma KeptListed<V>(items: map<Key, Entry<V>>, order: seq<Entry<V>>, m: map<Key, V>, contents: map<Key, V>)
    requires Linked(items, order) && contents.Keys == items.Keys
    requires forall k | k in contents :: k in m && contents[k] == m[k]
    ensures contents == Kept(m, KeysOf(order))
  {
    LinkedKeys(items, order);
  }

  lemma Removed<V>(items: map<Key, Entry<V>>, order: seq<Entry<V>>, e: Entry<V>)
    requires Linked(items, order) && e in order
    ensures Linked(items - {e.key}, Apart(order, e)) && KeysOf(Apart(order, e)) == Without(KeysOf(order), e.key)
    ensures |Apart(order, e)| == |order| - 1
  {
    LinkedKeys(items, order);
    ApartKeys(order, e);
    WithoutKeeps(KeysOf(order), e.key);
    var rest := Apart(order, e);
    forall i, j | 0 <= i < j < |rest| ensures !SameKey(rest, i, j) {
      assert KeysOf(rest)[i] != KeysOf(rest)[j];
    }
    var at :| 0 <= at < |order| && order[at] == e;
    assert KeysOf(order)[at] == e.key;
  }

  lemma Pushed<V>(items: map<Key, Entry<V>>, order: seq<Entry<V>>, e: Entry<V>)
    requires Linked(items, order) && e.key !in items
    ensures Linked(items[e.key := e], [e] + order) && KeysOf([e] + order) == [e.key] + KeysOf(order)
  {
    var more := [e] + order;
    forall i, j | 0 <= i < j < |more| ensures !SameKey(more, i, j) {
      assert order[j - 1] in order;
      if i > 0 {
        assert !SameKey(order, i - 1, j - 1);
      }
    }
  }

  lemma MovedFront<V>(items: map<Key, Entry<V>>, order: seq<Entry<V>>, e: Entry<V>)
    requires Linked(items, order) && e in order
    ensures Linked(items, [e] + Apart(order, e)) && KeysOf([e] + Apart(order, e)) == [e.key] + Without(KeysOf(order), e.key)
    ensures |[e] + Apart(order, e)| == |order|
  {
    var bare, rest := items - {e.key}, Apart(order, e);
    assert bare[e.key := e] == items;
    Removed(items, order, e);
    Pushed(bare, rest, e);
  }

  /** Dropping the last of distinct keys. */
  lemma {:induction false} WithoutLast(keys: seq<Key>)
    requires keys != [] && Unique(keys)
    ensures Without(keys, keys[|keys| - 1]) == keys[..|keys| - 1]
  {
    if |keys| > 1 {
      WithoutLast(keys[1..]);
      assert keys[..|keys| - 1] == [keys[0]] + keys[1..][..|keys| - 2];
    } else {
      assert keys[1..] == [];
    }
  }

  // ---- least recently used ----

  /** The keys used so far, each once, the latest use first. */
  function Recent(uses: seq<Key>): seq<Key> {
    if uses == [] then [] else [uses[|uses| - 1]] + Without(Recent(uses[..|uses| - 1]), uses[|uses| - 1])
  }

  /** The order after some uses, from an empty cache with room for n. */
  function OrderAfter(uses: seq<Key>, n: nat): seq<Key> {
    if uses == [] then [] else Used(OrderAfter(uses[..|uses| - 1], n), uses[|uses| - 1], n)
  }

  lemma {:induction false} WithoutTop(keys: seq<Key>, k: Key, n: nat)
    requires n > 0 && Unique(keys)
    ensures Top([k] + Without(Top(keys, n), k), n) == Top([k] + Without(keys, k), n)
  {
    if |keys| > n {
      WithoutPrefix(keys, k, n);
      WithoutKeeps(keys, k);
      var a, b := Without(keys[..n], k), Without(keys, k);
      assert Unique(keys[..n]);
      WithoutKeeps(keys[..n], k);
      if k in keys[..n] {
        assert ([k] + b)[..n] == [k] + b[..n - 1];
      } else {
        WithoutAbsent(keys[..n], k);
        assert ([k] + a)[..n] == [k] + a[..n - 1] == [k] + b[..n - 1] == ([k] + b)[..n];
      }
    }
  }

  lemma {:induction false} WithoutPrefix(keys: seq<Key>, k: Key, n: nat)
    requires n <= |keys|
    ensures Without(keys[..n], k) <= Without(keys, k)
  {
    if n > 0 {
      WithoutPrefix(keys[1..], k, n - 1);
      assert keys[..n][1..] == keys[1..][..n - 1];
    }
  }

  lemma {:induction false} RecentIsUnique(uses: seq<Key>)
    ensures Unique(Recent(uses))
  {
    if uses != [] {
      RecentIsUnique(uses[..|uses| - 1]);
      WithoutKeeps(Recent(uses[..|uses| - 1]), uses[|uses| - 1]);
    }
  }

  /** Whatever was used in whatever order, what is left are the n keys used last: eviction takes the one used longest ago. */
  lemma {:induction false} KeepsMostRecent(uses: seq<Key>, n: nat)
    requires n > 0
    ensures OrderAfter(uses, n) == Top(Recent(uses), n)
  {
    if uses != [] {
      var front, k := uses[..|uses| - 1], uses[|uses| - 1];
      KeepsMostRecent(front, n);
      RecentIsUnique(front);
      WithoutTop(Recent(front), k, n);
    }
  }

  /** A larger cache holds everything a smaller one does. */
  lemma LargerHoldsMore(uses: seq<Key>, m: nat, n: nat)
    requires 0 < m <= n
    ensures OrderAfter(uses, m) <= OrderAfter(uses, n)
  {
    KeepsMostRecent(uses, m);
    KeepsMostRecent(uses, n);
  }
}
