/** Sliding windows over a history in which every item has an instant. */
module Windows {
  type Time = real

  type Clock<!T> = T -> Time

  /** The items later than a horizon, as pruning keeps them. */
  function Since<T>(at: Clock<T>, s: seq<T>, horizon: Time): seq<T> {
    if s == [] then []
    else
      var last := s[|s| - 1];
      if at(last) > horizon then Since(at, s[..|s| - 1], horizon) + [last] else Since(at, s[..|s| - 1], horizon)
  }

  function Until<T>(at: Clock<T>, s: seq<T>, t: Time): seq<T> {
    if s == [] then []
    else
      var last := s[|s| - 1];
      if at(last) <= t then Until(at, s[..|s| - 1], t) + [last] else Until(at, s[..|s| - 1], t)
  }

  /** The items in the half-open window that ends at `t`. */
  function InWindow<T>(at: Clock<T>, s: seq<T>, t: Time, window: Time): seq<T> {
    Until(at, Since(at, s, t - window), t)
  }

  ghost predicate Before<T>(at: Clock<T>, s: seq<T>, t: Time) { forall i :: 0 <= i < |s| ==> at(s[i]) <= t }

  /** A pruned list and the full history agree on everything later calls can look at. */
  ghost predicate Agrees<T>(at: Clock<T>, stored: seq<T>, hist: seq<T>, from: Time) {
    forall h: Time :: h >= from ==> Since(at, stored, h) == Since(at, hist, h)
  }

  lemma SinceSnoc<T>(at: Clock<T>, s: seq<T>, x: T, h: Time)
    ensures Since(at, s + [x], h) == if at(x) > h then Since(at, s, h) + [x] else Since(at, s, h)
  {
    assert (s + [x])[..|s|] == s;
  }

  lemma UntilSnoc<T>(at: Clock<T>, s: seq<T>, x: T, t: Time)
    ensures Until(at, s + [x], t) == if at(x) <= t then Until(at, s, t) + [x] else Until(at, s, t)
  {
    assert (s + [x])[..|s|] == s;
  }

  lemma {:induction false} SinceSince<T>(at: Clock<T>, s: seq<T>, h: Time, h': Time)
    requires h <= h'
    ensures Since(at, Since(at, s, h), h') == Since(at, s, h')
  {
    if s != [] {
      var init, last := s[..|s| - 1], s[|s| - 1];
      SinceSince(at, init, h, h');
      if at(last) > h { SinceSnoc(at, Since(at, init, h), last, h'); }
    }
  }

  lemma {:induction false} UntilAll<T>(at: Clock<T>, s: seq<T>, h: Time, t: Time)
    requires Before(at, s, t)
    ensures Until(at, Since(at, s, h), t) == Since(at, s, h)
  {
    if s != [] {
      var init, last := s[..|s| - 1], s[|s| - 1];
      UntilAll(at, init, h, t);
      UntilSnoc(at, Since(at, init, h), last, t);
    }
  }

  lemma {:induction false} NothingLater<T>(at: Clock<T>, s: seq<T>, h: Time, t: Time)
    requires Before(at, s, t)
    ensures t <= h ==> Since(at, s, h) == []
  {
    if s != [] { NothingLater(at, s[..|s| - 1], h, t); }
  }

  lemma {:induction false} SinceIsFewer<T>(at: Clock<T>, s: seq<T>, h: Time)
    ensures |Since(at, s, h)| <= |s|
    ensures |Since(at, s, h)| == |s| <==> forall i :: 0 <= i < |s| ==> at(s[i]) > h
    ensures |Since(at, s, h)| == |s| ==> Since(at, s, h) == s
  {
    if s != [] {
      var init, last := s[..|s| - 1], s[|s| - 1];
      SinceIsFewer(at, init, h);
      assert s == init + [last];
    }
  }

  lemma AgreesPruned<T>(at: Clock<T>, stored: seq<T>, hist: seq<T>, from: Time, h: Time)
    requires Agrees(at, stored, hist, from) && h >= from
    ensures Since(at, stored, h) == Since(at, hist, h) && Agrees(at, Since(at, stored, h), hist, h)
  {
    hide Since;
    forall h' | h' >= h ensures Since(at, Since(at, stored, h), h') == Since(at, hist, h') {
      SinceSince(at, stored, h, h');
    }
  }

  lemma AgreesSnoc<T>(at: Clock<T>, stored: seq<T>, hist: seq<T>, from: Time, x: T)
    requires Agrees(at, stored, hist, from)
    ensures Agrees(at, stored + [x], hist + [x], from)
  {
    hide Since;
    forall h | h >= from ensures Since(at, stored + [x], h) == Since(at, hist + [x], h) {
      SinceSnoc(at, stored, x, h);
      SinceSnoc(at, hist, x, h);
    }
  }

  lemma CountSnoc<T(!new)>(s: seq<T>, x: T)
    requires s != []
    ensures multiset(s)[x] == multiset(s[..|s| - 1])[x] + if s[|s| - 1] == x then 1 else 0
  {
    assert s == s[..|s| - 1] + [s[|s| - 1]];
  }

  lemma {:induction false} SinceHolds<T(!new)>(at: Clock<T>, s: seq<T>, h: Time, x: T)
    ensures multiset(Since(at, s, h))[x] == if at(x) > h then multiset(s)[x] else 0
  {
    if s != [] {
      SinceHolds(at, s[..|s| - 1], h, x);
      CountSnoc(s, x);
    }
  }

  lemma {:induction false} UntilHolds<T(!new)>(at: Clock<T>, s: seq<T>, t: Time, x: T)
    ensures multiset(Until(at, s, t))[x] == if at(x) <= t then multiset(s)[x] else 0
  {
    if s != [] {
      UntilHolds(at, s[..|s| - 1], t, x);
      CountSnoc(s, x);
    }
  }

  /** A window holds each item as often as the history does if its instant lies in it, and no other item. */
  lemma WindowHolds<T(!new)>(at: Clock<T>, s: seq<T>, t: Time, window: Time, x: T)
    ensures multiset(InWindow(at, s, t, window))[x] == if t - window < at(x) <= t then multiset(s)[x] else 0
  {
    hide Since, Until;
    SinceHolds(at, s, t - window, x);
    UntilHolds(at, Since(at, s, t - window), t, x);
  }

  /** What one more item does to the window that ends at `t`. */
  lemma WindowSnoc<T>(at: Clock<T>, hist: seq<T>, x: T, t: Time, window: Time)
    requires Before(at, hist, at(x))
    ensures InWindow(at, hist + [x], t, window) ==
            if at(x) > t then InWindow(at, hist, t, window)
            else if at(x) > t - window then Since(at, Since(at, hist, at(x) - window), t - window) + [x]
            else []
  {
    hide Since, Until;
    SinceSnoc(at, hist, x, t - window);
    UntilSnoc(at, Since(at, hist, t - window), x, t);
    if at(x) <= t {
      UntilAll(at, hist, t - window, t);
      SinceSince(at, hist, at(x) - window, t - window);
      NothingLater(at, hist, t - window, at(x));
    }
  }
}
