/** Dictionaries that remember the order of their keys, oldest first. */
module OrderedDict {
  datatype Ordered<K(!new), V> = Ordered(items: map<K, V>, order: seq<K>) {
    ghost predicate Valid() { NoRepeats(order) && forall k :: k in order <==> k in items }
  }

  ghost predicate NoRepeats<K>(s: seq<K>) { s == [] || (s[0] !in s[1..] && NoRepeats(s[1..])) }

  function Drop<K(==, !new)>(s: seq<K>, k: K): (r: seq<K>)
    ensures forall x :: x in r <==> x in s && x != k
    ensures NoRepeats(s) ==> NoRepeats(r)
    ensures k !in s ==> r == s
    ensures NoRepeats(s) && k in s ==> |r| == |s| - 1
  {
    if s == [] then [] else if s[0] == k then Drop(s[1..], k) else [s[0]] + Drop(s[1..], k)
  }

  lemma {:induction false} NoRepeatsSnoc<K(!new)>(s: seq<K>, k: K)
    requires NoRepeats(s) && k !in s
    ensures NoRepeats(s + [k])
  {
    if s != [] {
      NoRepeatsSnoc(s[1..], k);
      assert (s + [k])[1..] == s[1..] + [k];
    }
  }

  /** Assigning to a present key keeps its place; a new key becomes the youngest. */
  function Assign<K(==, !new), V>(d: Ordered<K, V>, k: K, v: V): (r: Ordered<K, V>)
    requires d.Valid()
    ensures r.Valid() && r.items == d.items[k := v]
  {
    if k in d.items then Ordered(d.items[k := v], d.order)
    else NoRepeatsSnoc(d.order, k); Ordered(d.items[k := v], d.order + [k])
  }

  function MoveToEnd<K(==, !new), V>(d: Ordered<K, V>, k: K): (r: Ordered<K, V>)
    requires d.Valid() && k in d.items
    ensures r.Valid() && r.items == d.items && |r.order| == |d.order|
  {
    NoRepeatsSnoc(Drop(d.order, k), k);
    Ordered(d.items, Drop(d.order, k) + [k])
  }

  function Remove<K(==, !new), V>(d: Ordered<K, V>, k: K): (r: Ordered<K, V>)
    requires d.Valid()
    ensures r.Valid() && r.items == d.items - {k}
  {
    Ordered(d.items - {k}, Drop(d.order, k))
  }

  function PopOldest<K(==, !new), V>(d: Ordered<K, V>): (r: Ordered<K, V>)
    requires d.Valid() && d.order != []
    ensures r.Valid() && r.items == d.items - {d.order[0]} && |r.order| == |d.order| - 1
  {
    Ordered(d.items - {d.order[0]}, d.order[1..])
  }

  /** Dropping the oldest keys until few enough are left. */
  function Trim<K(==, !new), V>(d: Ordered<K, V>, size: nat): (r: Ordered<K, V>)
    requires d.Valid()
    ensures r.Valid() && |r.order| <= size && r.items.Keys <= d.items.Keys
    ensures forall k :: k in r.items ==> r.items[k] == d.items[k]
    decreases |d.order|
  {
    if |d.order| <= size then d else Trim(PopOldest(d), size)
  }

  /** It takes the oldest keys and no others: what is left is the end of the order. */
  lemma {:induction false} TrimsOldestFirst<K(!new), V>(d: Ordered<K, V>, size: nat)
    requires d.Valid()
    ensures Trim(d, size).order == d.order[if |d.order| <= size then 0 else |d.order| - size..]
    decreases |d.order|
  {
    hide Trim;
    TrimStep(d, size);
    if |d.order| > size {
      TrimsOldestFirst(PopOldest(d), size);
    }
  }

  lemma TrimStep<K(!new), V>(d: Ordered<K, V>, size: nat)
    requires d.Valid()
    ensures |d.order| <= size ==> Trim(d, size) == d
    ensures |d.order| > size ==> Trim(d, size) == Trim(PopOldest(d), size) && PopOldest(d).order == d.order[1..]
  {
  }

  // How long ago a key was touched, counted in the keys touched since.

  function Behind<K(==)>(s: seq<K>, k: K): nat {
    if s == [] then 0 else if s[0] == k then |s| - 1 else Behind(s[1..], k)
  }

  lemma {:induction false} BehindSnoc<K(!new)>(s: seq<K>, k: K, x: K)
    requires k in s
    ensures Behind(s + [x], k) == Behind(s, k) + 1
  {
    assert (s + [x])[1..] == s[1..] + [x];
    if s[0] != k { BehindSnoc(s[1..], k, x); }
  }

  lemma {:induction false} BehindDrop<K(!new)>(s: seq<K>, k: K, x: K)
    requires k in s && x != k
    ensures Behind(Drop(s, x), k) <= Behind(s, k) && |Drop(s, x)| <= |s|
  {
    DropShrinks(s, x);
    if s[0] != k {
      BehindDrop(s[1..], k, x);
      if s[0] != x { assert ([s[0]] + Drop(s[1..], x))[1..] == Drop(s[1..], x); }
    } else {
      DropShrinks(s[1..], x);
    }
  }

  lemma {:induction false} DropShrinks<K(!new)>(s: seq<K>, x: K)
    ensures |Drop(s, x)| <= |s|
  {
    if s != [] { DropShrinks(s[1..], x); }
  }

  lemma {:induction false} BehindSuffix<K(!new)>(s: seq<K>, k: K, n: nat)
    requires n <= |s| && k in s && Behind(s, k) < |s| - n
    ensures k in s[n..] && Behind(s[n..], k) <= Behind(s, k)
  {
    if n > 0 {
      if s[0] != k {
        BehindSuffix(s[1..], k, n - 1);
        assert s[1..][n - 1..] == s[n..];
      }
    } else {
      assert s[0..] == s;
    }
  }

  lemma BehindLast<K(!new)>(s: seq<K>, k: K)
    requires k !in s
    ensures Behind(s + [k], k) == 0
    decreases |s|
  {
    if s == [] { assert [] + [k] == [k]; } else {
      assert (s + [k])[1..] == s[1..] + [k];
      BehindLast(s[1..], k);
    }
  }

  /** Touching a key makes it the youngest, and any other one at most one place older. */
  lemma MoveToEndAges<K(!new), V>(d: Ordered<K, V>, x: K, k: K)
    requires d.Valid() && x in d.items && k in d.items
    ensures var r := MoveToEnd(d, x); k in r.items && Behind(r.order, k) <= if k == x then 0 else Behind(d.order, k) + 1
  {
    if k == x {
      BehindLast(Drop(d.order, x), x);
    } else {
      BehindDrop(d.order, k, x);
      BehindSnoc(Drop(d.order, x), k, x);
    }
  }

  lemma {:induction false} DropLast<K(!new)>(s: seq<K>, x: K)
    requires x !in s
    ensures Drop(s + [x], x) == s
  {
    if s == [] {
      assert [] + [x] == [x] && [x][1..] == [];
    } else {
      assert (s + [x])[1..] == s[1..] + [x];
      DropLast(s[1..], x);
    }
  }

  lemma AssignAges<K(!new), V>(d: Ordered<K, V>, x: K, v: V, k: K)
    requires d.Valid() && k in d.items
    ensures var r := Assign(d, x, v);
            k in r.items && Behind(r.order, k) <= Behind(d.order, k) + if x in d.items then 0 else 1
  {
    if x !in d.items { BehindSnoc(d.order, k, x); }
  }

  /** Trimming spares what is young enough. */
  lemma TrimSpares<K(!new), V>(d: Ordered<K, V>, size: nat, k: K)
    requires d.Valid() && k in d.items && Behind(d.order, k) < size
    ensures var r := Trim(d, size); k in r.items && Behind(r.order, k) <= Behind(d.order, k)
  {
    TrimsOldestFirst(d, size);
    var n := if |d.order| <= size then 0 else |d.order| - size;
    BehindIsInside(d.order, k);
    BehindSuffix(d.order, k, n);
    assert k in Trim(d, size).order;
  }

  lemma {:induction false} BehindIsInside<K(!new)>(s: seq<K>, k: K)
    requires k in s
    ensures Behind(s, k) < |s|
  {
    if s[0] != k { BehindIsInside(s[1..], k); }
  }

  /** The number of keys is the length of their order. */
  lemma {:induction false} SizeIsLength<K(!new), V>(d: Ordered<K, V>)
    requires d.Valid()
    ensures |d.items| == |d.order|
    decreases |d.order|
  {
    if d.order == [] {
      assert d.items.Keys == {};
    } else {
      var k := d.order[0];
      var rest := Ordered(d.items - {k}, d.order[1..]);
      SizeIsLength(rest);
      assert d.items.Keys == rest.items.Keys + {k};
      assert |d.items| == |d.items.Keys| && |rest.items| == |rest.items.Keys|;
    }
  }
}
