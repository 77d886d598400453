/** Python's `sorted` with a key: a stable sort, here by insertion. */
module Sorting {
  import opened Bytes

  /** Whether the key of the first is at most the key of the second. */
  type Order<!T> = (T, T) -> bool

  ghost predicate IsOrder<T(!new)>(le: Order<T>) {
    && (forall x, y :: le(x, y) || le(y, x))
    && (forall x, y, z :: le(x, y) && le(y, z) ==> le(x, z))
  }

  function Insert<T>(le: Order<T>, x: T, rest: seq<T>): (r: seq<T>)
    ensures multiset(r) == multiset(rest) + multiset{x}
  {
    if rest == [] || le(x, rest[0]) then [x] + rest
    else
      assert rest == [rest[0]] + rest[1..];
      [rest[0]] + Insert(le, x, rest[1..])
  }

  function Sort<T>(le: Order<T>, s: seq<T>): (r: seq<T>)
    ensures multiset(r) == multiset(s) && |r| == |s|
  {
    if s == [] then []
    else
      assert s == [s[0]] + s[1..];
      Insert(le, s[0], Sort(le, s[1..]))
  }

  ghost predicate Sorted<T(!new)>(le: Order<T>, s: seq<T>) { forall i, j :: 0 <= i < j < |s| ==> le(s[i], s[j]) }

  lemma SameElements<T(!new)>(a: seq<T>, b: seq<T>, x: T)
    requires multiset(a) == multiset(b)
    ensures x in a <==> x in b
  {
    assert x in multiset(a) <==> x in multiset(b);
  }

  lemma InsertedFrom<T(!new)>(le: Order<T>, x: T, rest: seq<T>, y: T)
    ensures y in Insert(le, x, rest) <==> y == x || y in rest
  {
    hide Insert;
    SameElements(Insert(le, x, rest), rest + [x], y);
  }

  lemma {:induction false} InsertSorts<T(!new)>(le: Order<T>, x: T, rest: seq<T>)
    requires IsOrder(le) && Sorted(le, rest)
    ensures Sorted(le, Insert(le, x, rest))
  {
    if rest != [] && !le(x, rest[0]) {
      var tail := Insert(le, x, rest[1..]);
      InsertSorts(le, x, rest[1..]);
      forall j | 0 <= j < |tail| ensures le(rest[0], tail[j]) {
        InsertedFrom(le, x, rest[1..], tail[j]);
        if tail[j] != x {
          var k :| 0 <= k < |rest[1..]| && rest[1..][k] == tail[j];
          assert rest[k + 1] == tail[j];
        }
      }
    }
  }

  lemma {:induction false} SortSorts<T(!new)>(le: Order<T>, s: seq<T>)
    requires IsOrder(le)
    ensures Sorted(le, Sort(le, s))
  {
    if s != [] {
      SortSorts(le, s[1..]);
      InsertSorts(le, s[0], Sort(le, s[1..]));
    }
  }

  /** What is in order already stays as it is. */
  lemma {:induction false} SortIsIdle<T(!new)>(le: Order<T>, s: seq<T>)
    requires Sorted(le, s)
    ensures Sort(le, s) == s
  {
    if s != [] {
      SortIsIdle(le, s[1..]);
      assert s == [s[0]] + s[1..];
    }
  }

  /** The elements with the same key as `x`, in order. */
  function Alike<T>(le: Order<T>, s: seq<T>, x: T): seq<T> {
    if s == [] then []
    else if le(s[0], x) && le(x, s[0]) then [s[0]] + Alike(le, s[1..], x)
    else Alike(le, s[1..], x)
  }

  lemma AlikeCons<T(!new)>(le: Order<T>, y: T, s: seq<T>, x: T)
    ensures Alike(le, [y] + s, x) == if le(y, x) && le(x, y) then [y] + Alike(le, s, x) else Alike(le, s, x)
  {
    assert ([y] + s)[1..] == s;
  }

  lemma {:induction false} InsertAlike<T(!new)>(le: Order<T>, y: T, rest: seq<T>, x: T)
    requires IsOrder(le)
    ensures Alike(le, Insert(le, y, rest), x) == Alike(le, [y] + rest, x)
  {
    if rest != [] && !le(y, rest[0]) {
      InsertAlike(le, y, rest[1..], x);
      AlikeCons(le, rest[0], Insert(le, y, rest[1..]), x);
      AlikeCons(le, y, rest[1..], x);
      AlikeCons(le, y, rest, x);
    }
  }

  /** Elements with equal keys keep their order. */
  lemma {:induction false} SortIsStable<T(!new)>(le: Order<T>, s: seq<T>, x: T)
    requires IsOrder(le)
    ensures Alike(le, Sort(le, s), x) == Alike(le, s, x)
  {
    if s != [] {
      SortIsStable(le, s[1..], x);
      InsertAlike(le, s[0], Sort(le, s[1..]), x);
      AlikeCons(le, s[0], Sort(le, s[1..]), x);
    }
  }

  ghost predicate Strict<T(!new)>(le: Order<T>, s: seq<T>) { forall i, j :: 0 <= i < j < |s| ==> !le(s[j], s[i]) }

  lemma SameHead<T(!new)>(le: Order<T>, s: seq<T>, t: seq<T>)
    requires IsOrder(le) && Sorted(le, s) && Strict(le, t) && multiset(s) == multiset(t) && s != [] && t != []
    ensures s[0] == t[0]
  {
    SameElements(s, t, s[0]);
    SameElements(s, t, t[0]);
    var i :| 0 <= i < |t| && t[i] == s[0];
    var j :| 0 <= j < |s| && s[j] == t[0];
    assert j > 0 ==> le(s[0], s[j]);
  }

  /** With distinct keys there is one sorted arrangement only. */
  lemma {:induction false} SortedIsUnique<T(!new)>(le: Order<T>, s: seq<T>, t: seq<T>)
    requires IsOrder(le) && Sorted(le, s) && Strict(le, t) && multiset(s) == multiset(t)
    ensures s == t
  {
    assert |s| == |multiset(s)| == |t|;
    if s != [] {
      hide IsOrder, Sorted, Strict;
      SameHead(le, s, t);
      Tails(le, s, t);
      SortedIsUnique(le, s[1..], t[1..]);
      assert s == [s[0]] + s[1..] && t == [t[0]] + t[1..];
    }
  }

  lemma Tails<T(!new)>(le: Order<T>, s: seq<T>, t: seq<T>)
    requires s != [] && t != [] && s[0] == t[0] && multiset(s) == multiset(t) && Sorted(le, s) && Strict(le, t)
    ensures multiset(s[1..]) == multiset(t[1..]) && Sorted(le, s[1..]) && Strict(le, t[1..])
  {
    TailOf(s);
    TailOf(t);
  }

  lemma TailOf<T>(s: seq<T>)
    requires s != []
    ensures multiset(s[1..]) == multiset(s) - multiset{s[0]}
  {
    assert s == [s[0]] + s[1..];
  }

  // ---------------------------------------------------------------------------------------
  // Searching what was sorted
  // ---------------------------------------------------------------------------------------

  /** The first element with the property. */
  function First<T>(p: T -> bool, s: seq<T>): Option<T> {
    if s == [] then None else if p(s[0]) then Some(s[0]) else First(p, s[1..])
  }

  /** The element with the property that has the least key, and among equals comes first. */
  function Best<T>(le: Order<T>, p: T -> bool, s: seq<T>): Option<T> {
    if s == [] then None
    else
      var later := Best(le, p, s[1..]);
      if p(s[0]) && (later.None? || le(s[0], later.value)) then Some(s[0]) else later
  }

  /** No element with the property has a smaller key, and none before this one has the same. */
  ghost predicate IsLeast<T(!new)>(le: Order<T>, p: T -> bool, s: seq<T>, i: int) {
    && 0 <= i < |s| && p(s[i])
    && forall j :: 0 <= j < |s| && p(s[j]) ==> le(s[i], s[j]) && (j < i ==> !le(s[j], s[i]))
  }

  lemma {:induction false} BestIs<T(!new)>(le: Order<T>, p: T -> bool, s: seq<T>)
    requires IsOrder(le)
    ensures Best(le, p, s).None? <==> forall i :: 0 <= i < |s| ==> !p(s[i])
    ensures Best(le, p, s).Some? ==> exists i :: IsLeast(le, p, s, i) && s[i] == Best(le, p, s).value
  {
    if s != [] {
      var tail := s[1..];
      BestIs(le, p, tail);
      assert forall i :: 1 <= i < |s| ==> s[i] == tail[i - 1];
      var later := Best(le, p, tail);
      if later.Some? {
        var i :| IsLeast(le, p, tail, i) && tail[i] == later.value;
        assert IsLeast(le, p, s, if p(s[0]) && le(s[0], later.value) then 0 else i + 1);
      } else if p(s[0]) {
        assert IsLeast(le, p, s, 0);
      }
    }
  }

  /** There is only one such element. */
  lemma LeastIsOne<T(!new)>(le: Order<T>, p: T -> bool, s: seq<T>, i: int, j: int)
    requires IsLeast(le, p, s, i) && IsLeast(le, p, s, j)
    ensures i == j
  {
  }

  lemma {:induction false} FirstIsIn<T(!new)>(p: T -> bool, s: seq<T>)
    ensures First(p, s).Some? ==> First(p, s).value in s && p(First(p, s).value)
    ensures First(p, s).None? <==> forall x :: x in s ==> !p(x)
  {
    if s != [] && !p(s[0]) {
      FirstIsIn(p, s[1..]);
      assert s == [s[0]] + s[1..];
    }
  }

  lemma {:induction false} FirstOfInsert<T(!new)>(le: Order<T>, p: T -> bool, x: T, rest: seq<T>)
    requires IsOrder(le) && Sorted(le, rest)
    ensures var later := First(p, rest);
            First(p, Insert(le, x, rest)) ==
            if p(x) && (later.None? || le(x, later.value)) then Some(x) else later
  {
    if rest == [] {
      assert [x][1..] == [];
    } else if le(x, rest[0]) {
      assert ([x] + rest)[1..] == rest;
      FirstIsIn(p, rest);
      assert First(p, rest).Some? ==> le(x, First(p, rest).value);
    } else {
      FirstOfInsert(le, p, x, rest[1..]);
      assert ([rest[0]] + Insert(le, x, rest[1..]))[1..] == Insert(le, x, rest[1..]);
    }
  }

  /** Sorting stably and taking the first hit is choosing the least, first listed first. */
  lemma {:induction false} FirstOfSorted<T(!new)>(le: Order<T>, p: T -> bool, s: seq<T>)
    requires IsOrder(le)
    ensures First(p, Sort(le, s)) == Best(le, p, s)
  {
    if s != [] {
      FirstOfSorted(le, p, s[1..]);
      SortSorts(le, s[1..]);
      FirstOfInsert(le, p, s[0], Sort(le, s[1..]));
    }
  }
}
