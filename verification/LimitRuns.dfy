/**
 * Whole runs of the limit store, seen from one counter.
 *
 * The store keeps a pruned list per counter. Here it is compared with the full history of that
 * counter's admissions, which nothing ever prunes.
 */
module LimitRuns {
  import opened Bytes
  import opened Text
  import opened OrderedDict
  import opened Windows
  import opened Limits

  // ---------------------------------------------------------------------------------------
  // Members and suffixes
  // ---------------------------------------------------------------------------------------

  lemma FirstColon(a: string, b: string)
    requires ':' !in a
    ensures var s := a + ":" + b;
            && s[|a|] == ':' && s[..|a|] == a && s[|a| + 1..] == b
            && forall i :: 0 <= i < |a| ==> s[i] != ':'
  {
    var s := a + ":" + b;
    forall i | 0 <= i < |a| ensures s[i] != ':' {
      assert a[i] in a;
    }
  }

  /** Two admissions share a member exactly if they are the same decision at the same instant. */
  lemma MemberExactly(repr: Repr, ticks: iset<Time>, d: string, t: Time, d': string, t': Time)
    requires IsRepr(repr, ticks) && t in ticks && t' in ticks
    ensures Member(repr, d, t) == Member(repr, d', t') <==> d == d' && t == t'
  {
    FirstColon(repr(t), d);
    FirstColon(repr(t'), d');
  }

  /** Releasing a decision also frees every id that ends in a colon and that decision, and no others. */
  lemma ReleaseExactly(repr: Repr, d: string, t: Time, released: string)
    requires ':' !in repr(t)
    ensures EndsWith(Member(repr, d, t), ":" + released) <==> d == released || EndsWith(d, ":" + released)
  {
    var m, x := Member(repr, d, t), ":" + released;
    FirstColon(repr(t), d);
    if |released| < |d| {
      assert m[|m| - |x|..] == d[|d| - |x|..];
    } else if |released| == |d| {
      assert m[|m| - |x|..] == ":" + d;
      assert x[1..] == released && (":" + d)[1..] == d;
    } else {
      assert x[0] == ':';
      assert |x| <= |m| ==> m[|m| - |x|..][0] == m[|m| - |x|];
    }
  }

  predicate IsWhole(t: Time) { t >= 0.0 && t == t.Floor as Time }

  /** A rendering of whole seconds. */
  function WholeSeconds(t: Time): string { if t >= 0.0 then Decimal(t.Floor) else "" }

  /** Renderings that tell infinitely many instants apart do exist. */
  lemma WholeSecondsAreLegible()
    ensures IsRepr(WholeSeconds, iset t: Time | IsWhole(t))
  {
    forall t, u | IsWhole(t) && IsWhole(u) && WholeSeconds(t) == WholeSeconds(u) ensures t == u {
      DecimalInjective(t.Floor, u.Floor);
    }
  }

  // ---------------------------------------------------------------------------------------
  // Windows of the history
  // ---------------------------------------------------------------------------------------

  ghost predicate Fits(hist: seq<Entry>, t: Time, window: Time, ceiling: real) {
    InWindow(AtOf, hist, t, window) == [] || Cost(InWindow(AtOf, hist, t, window)) <= ceiling
  }

  ghost predicate Charges(es: seq<Entry>) { forall i :: 0 <= i < |es| ==> es[i].cost >= 0.0 }

  ghost predicate Later(es: seq<Entry>, h: Time, m: string) {
    exists i :: 0 <= i < |es| && es[i].at > h && es[i].member == m
  }

  lemma LaterSnoc(es: seq<Entry>, e: Entry, h: Time, m: string)
    ensures Later(es + [e], h, m) <==> Later(es, h, m) || (e.at > h && e.member == m)
  {
    var all := es + [e];
    assert all[|es|] == e;
    if i :| 0 <= i < |es| && es[i].at > h && es[i].member == m { assert all[i].member == m; }
    if i :| 0 <= i < |all| && all[i].at > h && all[i].member == m && i < |es| { assert es[i].member == m; }
  }

  /** A member found later than a horizon is one found with a later time. */
  lemma {:induction false} MemberSince(es: seq<Entry>, h: Time, m: string)
    ensures HasMember(Since(AtOf, es, h), m) <==> Later(es, h, m)
  {
    if es != [] {
      var init, last := es[..|es| - 1], es[|es| - 1];
      MemberSince(init, h, m);
      MemberSnoc(Since(AtOf, init, h), last, m);
      LaterSnoc(init, last, h, m);
      assert es == init + [last];
    }
  }

  lemma MemberSnoc(es: seq<Entry>, e: Entry, m: string)
    ensures HasMember(es + [e], m) <==> HasMember(es, m) || e.member == m
  {
    var all := es + [e];
    assert all[|es|] == e;
    if i :| 0 <= i < |es| && es[i].member == m { assert all[i].member == m; }
    if i :| 0 <= i < |all| && all[i].member == m && i < |es| { assert es[i].member == m; }
  }

  lemma WithoutSnoc(es: seq<Entry>, e: Entry, x: string)
    ensures Without(es + [e], x) == if EndsWith(e.member, x) then Without(es, x) else Without(es, x) + [e]
  {
    assert (es + [e])[..|es|] == es;
  }

  lemma {:induction false} WithoutSince(es: seq<Entry>, h: Time, x: string)
    ensures Since(AtOf, Without(es, x), h) == Without(Since(AtOf, es, h), x)
  {
    if es != [] {
      var init, last := es[..|es| - 1], es[|es| - 1];
      WithoutSince(init, h, x);
      SinceSnoc(AtOf, Without(init, x), last, h);
      WithoutSnoc(Since(AtOf, init, h), last, x);
    }
  }

  lemma {:induction false} WithoutUntil(es: seq<Entry>, t: Time, x: string)
    ensures Until(AtOf, Without(es, x), t) == Without(Until(AtOf, es, t), x)
  {
    if es != [] {
      var init, last := es[..|es| - 1], es[|es| - 1];
      WithoutUntil(init, t, x);
      UntilSnoc(AtOf, Without(init, x), last, t);
      WithoutSnoc(Until(AtOf, init, t), last, x);
    }
  }

  lemma CostSnoc(es: seq<Entry>, e: Entry)
    ensures Cost(es + [e]) == Cost(es) + e.cost
  {
    assert (es + [e])[..|es|] == es;
  }

  lemma {:induction false} CostOfSince(es: seq<Entry>, h: Time)
    requires Charges(es)
    ensures 0.0 <= Cost(Since(AtOf, es, h)) <= Cost(es)
  {
    if es != [] {
      hide Cost, Since;
      var init, last := es[..|es| - 1], es[|es| - 1];
      assert es == init + [last];
      CostOfSince(init, h);
      SinceSnoc(AtOf, init, last, h);
      CostSnoc(Since(AtOf, init, h), last);
      CostSnoc(init, last);
    }
  }

  lemma {:induction false} ChargesSince(es: seq<Entry>, h: Time)
    requires Charges(es)
    ensures Charges(Since(AtOf, es, h))
  {
    if es != [] { ChargesSince(es[..|es| - 1], h); }
  }

  lemma {:induction false} ChargesUntil(es: seq<Entry>, t: Time)
    requires Charges(es)
    ensures Charges(Until(AtOf, es, t))
  {
    if es != [] { ChargesUntil(es[..|es| - 1], t); }
  }

  lemma {:induction false} CostOfWithout(es: seq<Entry>, x: string)
    requires Charges(es)
    ensures 0.0 <= Cost(Without(es, x)) <= Cost(es)
  {
    if es != [] {
      hide Cost, Without, EndsWith;
      var init, last := es[..|es| - 1], es[|es| - 1];
      assert es == init + [last];
      CostOfWithout(init, x);
      WithoutSnoc(init, last, x);
      CostSnoc(Without(init, x), last);
      CostSnoc(init, last);
    }
  }

  lemma {:induction false} ChargesWithout(es: seq<Entry>, x: string)
    requires Charges(es)
    ensures Charges(Without(es, x))
  {
    hide EndsWith;
    if es != [] { ChargesWithout(es[..|es| - 1], x); }
  }

  // ---------------------------------------------------------------------------------------
  // Steps
  // ---------------------------------------------------------------------------------------

  datatype Op =
    | Consume(key: LimitKey, cost: real, decisionId: string, now: Time)
    | Free(name: string, decisionId: string)

  /** The store, every admission of the watched counter that was not released, and the clock. */
  datatype Book = Book(s: Counters, hist: seq<Entry>, last: Time)

  ghost function BookStep(b: Book, cfg: Config, repr: Repr, k: LimitKey, op: Op): Book
    requires b.s.Valid() && cfg.Valid()
  {
    match op
    case Consume(key, cost, d, now) =>
      var (s', v) := TryConsume(b.s, cfg, repr, key, cost, d, now);
      var member := Member(repr, d, now);
      Book(s', if key.name == k.name && v.admitted && !HasMember(b.hist, member)
           then b.hist + [Entry(now, member, cost)] else b.hist, now)
    case Free(name, d) =>
      Book(Release(b.s, name, d), if name == k.name then Without(b.hist, ":" + d) else b.hist, b.last)
  }

  /** Time does not run back, costs are not negative, and a counter's name spells its window. */
  ghost predicate Proper(b: Book, ticks: iset<Time>, k: LimitKey, op: Op) {
    op.Consume? ==> op.now in ticks && op.now >= b.last && op.cost >= 0.0 && (op.key.name == k.name ==> op.key == k)
  }

  ghost predicate NotEvicted(b: Book, b': Book, k: LimitKey) {
    k.name in b.s.windows.items ==> k.name in b'.s.windows.items
  }

  /** The member binds the entry's time to some decision. */
  ghost predicate Signed(e: Entry, repr: Repr) { exists d :: e.member == Member(repr, d, e.at) }

  ghost predicate Written(hist: seq<Entry>, repr: Repr, ticks: iset<Time>, last: Time) {
    Before(AtOf, hist, last) && forall i :: 0 <= i < |hist| ==> hist[i].at in ticks && Signed(hist[i], repr)
  }

  ghost predicate BookOk(b: Book, cfg: Config, repr: Repr, ticks: iset<Time>, k: LimitKey) {
    && b.s.Valid() && (k.name in b.s.cooldowns ==> k.name in b.s.windows.items)
    && Agrees(AtOf, b.s.Entries(k.name), b.hist, b.last - k.window)
    && Charges(b.hist) && Written(b.hist, repr, ticks, b.last)
    && forall t :: Fits(b.hist, t, k.window, cfg.Ceiling(k.name))
  }

  // ---------------------------------------------------------------------------------------
  // The exact admission rule
  // ---------------------------------------------------------------------------------------

  lemma SeenIsWindow(b: Book, cfg: Config, repr: Repr, ticks: iset<Time>, k: LimitKey, now: Time)
    requires BookOk(b, cfg, repr, ticks, k) && now >= b.last
    ensures Since(AtOf, b.s.Entries(k.name), now - k.window) == Since(AtOf, b.hist, now - k.window) ==
              InWindow(AtOf, b.hist, now, k.window)
  {
    hide Since, Until, Fits, Charges, Cost;
    UntilAll(AtOf, b.hist, now - k.window, now);
  }

  lemma RepeatIsSeen(hist: seq<Entry>, repr: Repr, ticks: iset<Time>, last: Time, d: string, now: Time, window: Time)
    requires IsRepr(repr, ticks) && now in ticks && Written(hist, repr, ticks, last) && window > 0.0
    ensures HasMember(Since(AtOf, hist, now - window), Member(repr, d, now)) <==> HasMember(hist, Member(repr, d, now))
  {
    var m := Member(repr, d, now);
    MemberSince(hist, now - window, m);
    if i :| 0 <= i < |hist| && hist[i].member == m {
      assert Signed(hist[i], repr);
      var d' :| hist[i].member == Member(repr, d', hist[i].at);
      MemberExactly(repr, ticks, d, now, d', hist[i].at);
    }
  }

  /**
   * The verdict, told from the full history alone: outside a cooldown a call is admitted exactly if
   * it repeats an admission of the same instant, or its cost still fits into the window that ends now.
   */
  lemma AdmissionExact(b: Book, cfg: Config, repr: Repr, ticks: iset<Time>, k: LimitKey, cost: real, d: string,
                       now: Time)
    requires IsRepr(repr, ticks) && cfg.Valid() && k.window > 0.0 && BookOk(b, cfg, repr, ticks, k) && now in ticks
    requires now >= b.last
    ensures var v, used := TryConsume(b.s, cfg, repr, k, cost, d, now).1, Cost(InWindow(AtOf, b.hist, now, k.window));
            var repeated := HasMember(b.hist, Member(repr, d, now));
            var limit := if k.name in cfg.limits then cfg.limits[k.name] else cfg.defaultLimit;
            && (v.admitted <==> !CoolingDown(b.s, k.name, now) && (repeated || used + cost <= limit))
            && v.limit == limit
            && v.observed == if CoolingDown(b.s, k.name, now) || repeated then used else used + cost
  {
    hide Since, Until, Cost, HasMember, Agrees, Fits, Written, Track, Assign, Member;
    SeenIsWindow(b, cfg, repr, ticks, k, now);
    RepeatIsSeen(b.hist, repr, ticks, b.last, d, now, k.window);
  }

  // ---------------------------------------------------------------------------------------
  // What a call does to the watched counter
  // ---------------------------------------------------------------------------------------

  /** Eviction drops counters whole: one that is left has its entries and its cooldown. */
  lemma {:induction false} EvictKeeps(s: Counters, maxSubjects: int, name: string)
    requires s.Valid() && name in Evict(s, maxSubjects).windows.items
    ensures var r := Evict(s, maxSubjects);
            && name in s.windows.items && r.windows.items[name] == s.windows.items[name]
            && (name in r.cooldowns <==> name in s.cooldowns)
            && (name in s.cooldowns ==> r.cooldowns[name] == s.cooldowns[name])
    decreases |s.windows.order|
  {
    if |s.windows.order| > maxSubjects && s.windows.order != [] {
      EvictKeeps(Counters(PopOldest(s.windows), s.cooldowns - {s.windows.order[0]}), maxSubjects, name);
    }
  }

  lemma {:induction false} EvictOnlyDrops(s: Counters, maxSubjects: int, name: string)
    requires s.Valid() && name in Evict(s, maxSubjects).cooldowns
    ensures name in s.cooldowns && Evict(s, maxSubjects).cooldowns[name] == s.cooldowns[name]
    decreases |s.windows.order|
  {
    if |s.windows.order| > maxSubjects && s.windows.order != [] {
      EvictOnlyDrops(Counters(PopOldest(s.windows), s.cooldowns - {s.windows.order[0]}), maxSubjects, name);
    }
  }

  predicate SameCounter(s: Counters, s': Counters, name: string) {
    && s.Entries(name) == s'.Entries(name)
    && (name in s'.cooldowns ==> name in s.cooldowns && s.cooldowns[name] == s'.cooldowns[name])
    && (name in s.windows.items && name in s.cooldowns ==> name in s'.cooldowns)
  }

  lemma TrackSpares(s: Counters, cfg: Config, key: string, name: string)
    requires s.Valid() && cfg.Valid() && key != name
    requires name in s.windows.items ==> name in Track(s, cfg, key).windows.items
    ensures SameCounter(s, Track(s, cfg, key), name)
  {
    if key !in s.windows.items {
      var grown := s.(windows := Assign(s.windows, key, []));
      if name in Track(s, cfg, key).windows.items { EvictKeeps(grown, cfg.maxSubjects, name); }
      if name in Track(s, cfg, key).cooldowns { EvictOnlyDrops(grown, cfg.maxSubjects, name); }
    }
  }

  lemma {:induction false} EvictForgets(s: Counters, maxSubjects: int, name: string)
    requires s.Valid() && name in s.windows.items && name !in Evict(s, maxSubjects).windows.items
    ensures name !in Evict(s, maxSubjects).cooldowns
    decreases |s.windows.order|
  {
    var next := Counters(PopOldest(s.windows), s.cooldowns - {s.windows.order[0]});
    if name in next.windows.items {
      EvictForgets(next, maxSubjects, name);
    } else if name in Evict(next, maxSubjects).cooldowns {
      EvictOnlyDrops(next, maxSubjects, name);
    }
  }

  lemma TrackForgets(s: Counters, cfg: Config, key: string, name: string)
    requires s.Valid() && cfg.Valid() && key != name && name in s.windows.items
    requires name !in Track(s, cfg, key).windows.items
    ensures name !in Track(s, cfg, key).cooldowns
  {
    hide Evict;
    EvictForgets(s.(windows := Assign(s.windows, key, [])), cfg.maxSubjects, name);
  }

  /** A call on another counter either leaves this one alone or forgets it, cooldown and all. */
  lemma EvictionForgets(s: Counters, cfg: Config, repr: Repr, key: LimitKey, cost: real, d: string, now: Time,
                        name: string)
    requires s.Valid() && cfg.Valid() && key.name != name && name in s.windows.items
    ensures var s' := TryConsume(s, cfg, repr, key, cost, d, now).0;
            if name in s'.windows.items then SameCounter(s, s', name)
            else s'.Entries(name) == [] && name !in s'.cooldowns
  {
    hide Track, Since, Cost, HasMember, Member;
    var s' := TryConsume(s, cfg, repr, key, cost, d, now).0;
    if name in s'.windows.items {
      OtherSpares(s, cfg, repr, key, cost, d, now, name);
    } else {
      TrackForgets(s.(cooldowns := s.cooldowns - {key.name}), cfg, key.name, name);
    }
  }

  // Which counter a call evicts

  /** How many counters have gone unused for longer. */
  function PlaceOf(order: seq<string>, name: string): (i: nat)
    requires name in order
    ensures i < |order| && order[i] == name
  {
    if order[0] == name then 0 else 1 + PlaceOf(order[1..], name)
  }

  lemma {:induction false} InSuffix(order: seq<string>, name: string, n: nat)
    requires NoRepeats(order) && name in order && n <= |order|
    ensures name in order[n..] <==> PlaceOf(order, name) >= n
  {
    if n > 0 {
      assert order[n..] == order[1..][n - 1..];
      if order[0] == name {
        assert forall i :: n <= i < |order| ==> order[i] in order[1..] by {
          assert forall i :: n <= i < |order| ==> order[i] == order[1..][i - 1];
        }
      } else {
        InSuffix(order[1..], name, n - 1);
      }
    }
  }

  lemma {:induction false} EvictsOldestFirst(s: Counters, maxSubjects: int)
    requires s.Valid() && maxSubjects >= 0
    ensures var n := if |s.windows.order| <= maxSubjects then 0 else |s.windows.order| - maxSubjects;
            Evict(s, maxSubjects).windows.order == s.windows.order[n..]
    decreases |s.windows.order|
  {
    if |s.windows.order| > maxSubjects {
      var rest := Counters(PopOldest(s.windows), s.cooldowns - {s.windows.order[0]});
      EvictsOldestFirst(rest, maxSubjects);
      assert rest.windows.order == s.windows.order[1..];
    }
  }

  lemma PresentEvictsExactly(s: Counters, cfg: Config, key: string, name: string)
    requires s.Valid() && cfg.Valid() && key !in s.windows.items && name in s.windows.items
    ensures name !in Present(s, cfg, key).windows.items <==>
            PlaceOf(s.windows.order, name) < |s.windows.order| + 1 - cfg.maxSubjects
  {
    hide Evict, NoRepeats;
    var order := s.windows.order;
    var grown := s.(windows := Assign(s.windows, key, []));
    EvictsOldestFirst(grown, cfg.maxSubjects);
    var n := if |order| + 1 <= cfg.maxSubjects then 0 else |order| + 1 - cfg.maxSubjects;
    assert Evict(grown, cfg.maxSubjects).windows.order == (order + [key])[n..] == order[n..] + [key];
    InSuffix(order, name, n);
  }

  /**
   * A call forgets another counter exactly if its own key is neither cooling down nor tracked and too
   * few counters have gone unused for longer than that one.
   */
  lemma EvictsExactly(s: Counters, cfg: Config, repr: Repr, key: LimitKey, cost: real, d: string, now: Time,
                      name: string)
    requires s.Valid() && cfg.Valid() && name in s.windows.items
    ensures name !in TryConsume(s, cfg, repr, key, cost, d, now).0.windows.items <==>
            && !CoolingDown(s, key.name, now) && key.name !in s.windows.items
            && PlaceOf(s.windows.order, name) < |s.windows.order| + 1 - cfg.maxSubjects
  {
    hide Present, Since, Cost, HasMember, Member;
    var cleared := s.(cooldowns := s.cooldowns - {key.name});
    if key.name !in s.windows.items {
      PresentEvictsExactly(cleared, cfg, key.name, name);
    } else {
      PresentIsIdle(cleared, cfg, key.name);
    }
  }

  lemma PresentIsIdle(s: Counters, cfg: Config, key: string)
    requires s.Valid() && cfg.Valid() && key in s.windows.items
    ensures Present(s, cfg, key) == s
  {
  }

  /** A call on another counter leaves this one alone, unless it evicts it. */
  lemma OtherSpares(s: Counters, cfg: Config, repr: Repr, key: LimitKey, cost: real, d: string, now: Time, name: string)
    requires s.Valid() && cfg.Valid() && key.name != name
    requires name in s.windows.items ==> name in TryConsume(s, cfg, repr, key, cost, d, now).0.windows.items
    ensures SameCounter(s, TryConsume(s, cfg, repr, key, cost, d, now).0, name)
  {
    hide Track, Since, Cost, HasMember, Member;
    if !CoolingDown(s, key.name, now) {
      TrackSpares(s.(cooldowns := s.cooldowns - {key.name}), cfg, key.name, name);
    }
  }

  /** What a call leaves in its own counter. */
  lemma OwnEntries(s: Counters, cfg: Config, repr: Repr, k: LimitKey, cost: real, d: string, now: Time)
    requires s.Valid() && cfg.Valid()
    ensures var (s', v) := TryConsume(s, cfg, repr, k, cost, d, now);
            var kept, member := Since(AtOf, s.Entries(k.name), now - k.window), Member(repr, d, now);
            && (s' == s || k.name in s'.windows.items)
            && s'.Entries(k.name) ==
              if CoolingDown(s, k.name, now) then s.Entries(k.name)
              else if v.admitted && !HasMember(kept, member) then kept + [Entry(now, member, cost)]
              else kept
  {
    hide Track, Since, Cost, HasMember, Member;
  }

  lemma AgreesWithout(stored: seq<Entry>, hist: seq<Entry>, from: Time, x: string)
    requires Agrees(AtOf, stored, hist, from)
    ensures Agrees(AtOf, Without(stored, x), Without(hist, x), from)
  {
    hide Since, Without;
    forall h | h >= from ensures Since(AtOf, Without(stored, x), h) == Since(AtOf, Without(hist, x), h) {
      WithoutSince(stored, h, x);
      WithoutSince(hist, h, x);
    }
  }

  /** One more admission fits every window, because it fits the one that ends with it. */
  lemma FitsSnoc(hist: seq<Entry>, e: Entry, t: Time, window: Time, ceiling: real)
    requires Before(AtOf, hist, e.at) && Charges(hist) && Fits(hist, t, window, ceiling)
    requires Cost(Since(AtOf, hist, e.at - window)) + e.cost <= ceiling
    ensures Fits(hist + [e], t, window, ceiling)
  {
    hide Since, InWindow, Cost, Charges;
    WindowSnoc(AtOf, hist, e, t, window);
    ChargesSince(hist, e.at - window);
    CostOfSince(Since(AtOf, hist, e.at - window), t - window);
    CostSnoc(Since(AtOf, Since(AtOf, hist, e.at - window), t - window), e);
  }

  lemma FitsWithout(hist: seq<Entry>, x: string, t: Time, window: Time, ceiling: real)
    requires Charges(hist) && Fits(hist, t, window, ceiling)
    ensures Fits(Without(hist, x), t, window, ceiling)
  {
    hide Since, Until, Cost, Charges;
    var w := Since(AtOf, hist, t - window);
    WithoutSince(hist, t - window, x);
    WithoutUntil(w, t, x);
    ChargesSince(hist, t - window);
    ChargesUntil(w, t);
    CostOfWithout(Until(AtOf, w, t), x);
  }

  lemma {:induction false} WrittenWithout(hist: seq<Entry>, x: string, repr: Repr, ticks: iset<Time>, last: Time)
    requires Written(hist, repr, ticks, last)
    ensures Written(Without(hist, x), repr, ticks, last)
  {
    hide Member, EndsWith;
    if hist != [] { WrittenWithout(hist[..|hist| - 1], x, repr, ticks, last); }
  }

  // ---------------------------------------------------------------------------------------
  // Every run
  // ---------------------------------------------------------------------------------------

  lemma OwnConsumeKeeps(b: Book, cfg: Config, repr: Repr, ticks: iset<Time>, k: LimitKey, cost: real, d: string,
                        now: Time)
    requires IsRepr(repr, ticks) && cfg.Valid() && k.window > 0.0 && BookOk(b, cfg, repr, ticks, k) && now in ticks
    requires now >= b.last && cost >= 0.0
    ensures BookOk(BookStep(b, cfg, repr, k, Consume(k, cost, d, now)), cfg, repr, ticks, k)
  {
    hide Since, Cost, HasMember, Member, TryConsume, Fits;
    var b', stored := BookStep(b, cfg, repr, k, Consume(k, cost, d, now)), b.s.Entries(k.name);
    var h, e := now - k.window, Entry(now, Member(repr, d, now), cost);
    OwnEntries(b.s, cfg, repr, k, cost, d, now);
    AdmissionExact(b, cfg, repr, ticks, k, cost, d, now);
    SeenIsWindow(b, cfg, repr, ticks, k, now);
    RepeatIsSeen(b.hist, repr, ticks, b.last, d, now, k.window);
    AgreesPruned(AtOf, stored, b.hist, b.last - k.window, h);
    if b'.hist != b.hist {
      AgreesSnoc(AtOf, Since(AtOf, stored, h), b.hist, h, e);
      forall t ensures Fits(b.hist + [e], t, k.window, cfg.Ceiling(k.name)) {
        FitsSnoc(b.hist, e, t, k.window, cfg.Ceiling(k.name));
      }
    }
  }

  lemma StepKeeps(b: Book, cfg: Config, repr: Repr, ticks: iset<Time>, k: LimitKey, op: Op)
    requires IsRepr(repr, ticks) && cfg.Valid() && k.window > 0.0 && BookOk(b, cfg, repr, ticks, k)
    requires Proper(b, ticks, k, op)
    requires NotEvicted(b, BookStep(b, cfg, repr, k, op), k)
    ensures BookOk(BookStep(b, cfg, repr, k, op), cfg, repr, ticks, k)
  {
    hide Since, Cost, HasMember, Member, TryConsume, Fits;
    match op
    case Consume(key, cost, d, now) =>
      if key.name == k.name {
        OwnConsumeKeeps(b, cfg, repr, ticks, k, cost, d, now);
      } else {
        OtherSpares(b.s, cfg, repr, key, cost, d, now, k.name);
      }
    case Free(name, d) => FreeKeeps(b, cfg, repr, ticks, k, name, d);
  }

  lemma FreeKeeps(b: Book, cfg: Config, repr: Repr, ticks: iset<Time>, k: LimitKey, name: string, d: string)
    requires cfg.Valid() && BookOk(b, cfg, repr, ticks, k)
    ensures BookOk(BookStep(b, cfg, repr, k, Free(name, d)), cfg, repr, ticks, k)
  {
    hide Since, Cost, Member, Fits;
    if name == k.name {
      var x := ":" + d;
      AgreesWithout(b.s.Entries(name), b.hist, b.last - k.window, x);
      ChargesWithout(b.hist, x);
      WrittenWithout(b.hist, x, repr, ticks, b.last);
      forall t ensures Fits(Without(b.hist, x), t, k.window, cfg.Ceiling(k.name)) {
        FitsWithout(b.hist, x, t, k.window, cfg.Ceiling(k.name));
      }
    }
  }

  /** A run: proper calls one after another, none of which evicts the watched counter. */
  ghost predicate IsRun(books: seq<Book>, ops: seq<Op>, cfg: Config, repr: Repr, ticks: iset<Time>, k: LimitKey) {
    && |books| == |ops| + 1 && books[0].s == EMPTY && books[0].hist == []
    && forall i :: 0 <= i < |ops| ==> Advances(books[i], ops[i], books[i + 1], cfg, repr, ticks, k)
  }

  ghost predicate Advances(b: Book, op: Op, b': Book, cfg: Config, repr: Repr, ticks: iset<Time>, k: LimitKey) {
    && b.s.Valid() && cfg.Valid() && Proper(b, ticks, k, op)
    && b' == BookStep(b, cfg, repr, k, op) && NotEvicted(b, b', k)
  }

  lemma {:induction false} RunKeeps(books: seq<Book>, ops: seq<Op>, cfg: Config, repr: Repr, ticks: iset<Time>,
                                    k: LimitKey, i: nat)
    requires IsRepr(repr, ticks) && cfg.Valid() && k.window > 0.0 && IsRun(books, ops, cfg, repr, ticks, k)
    requires i <= |ops|
    ensures BookOk(books[i], cfg, repr, ticks, k)
  {
    if i > 0 {
      hide BookOk, BookStep;
      var j := i - 1;
      RunKeeps(books, ops, cfg, repr, ticks, k, j);
      assert Advances(books[j], ops[j], books[j + 1], cfg, repr, ticks, k);
      StepKeeps(books[j], cfg, repr, ticks, k, ops[j]);
    }
  }

  /** At every moment of every run, every window of the full history is within the ceiling. */
  lemma WindowsNeverOverflow(books: seq<Book>, ops: seq<Op>, cfg: Config, repr: Repr, ticks: iset<Time>, k: LimitKey,
                             i: nat, t: Time)
    requires IsRepr(repr, ticks) && cfg.Valid() && k.window > 0.0 && IsRun(books, ops, cfg, repr, ticks, k)
    requires i <= |ops|
    ensures var limit := if k.name in cfg.limits then cfg.limits[k.name] else cfg.defaultLimit;
            var spent := InWindow(AtOf, books[i].hist, t, k.window);
            spent != [] ==> Cost(spent) <= limit
  {
    RunKeeps(books, ops, cfg, repr, ticks, k, i);
    assert Fits(books[i].hist, t, k.window, cfg.Ceiling(k.name));
  }

  // ---------------------------------------------------------------------------------------
  // Cooldown
  // ---------------------------------------------------------------------------------------

  ghost predicate Cooling(s: Counters, name: string, until: Time) {
    name in s.windows.items && name in s.cooldowns && s.cooldowns[name] == until
  }

  lemma StepCools(b: Book, cfg: Config, repr: Repr, ticks: iset<Time>, k: LimitKey, op: Op, b': Book, until: Time)
    requires Advances(b, op, b', cfg, repr, ticks, k) && Cooling(b.s, k.name, until) && (op.Consume? ==> op.now < until)
    ensures Cooling(b'.s, k.name, until)
  {
    hide Since, Cost, HasMember, Member, Track;
    if op.Consume? && op.key.name != k.name {
      OtherSpares(b.s, cfg, repr, op.key, op.cost, op.decisionId, op.now, k.name);
    }
  }

  /** A rejection starts a cooldown, or repeats the running one, and tells how long to wait; an admission does not. */
  lemma RejectionCools(s: Counters, cfg: Config, repr: Repr, k: LimitKey, cost: real, d: string, now: Time)
    requires s.Valid() && cfg.Valid() && (k.name in s.cooldowns ==> k.name in s.windows.items)
    ensures var (s', v) := TryConsume(s, cfg, repr, k, cost, d, now);
            && (!v.admitted ==> v.cooldownUntil.Some? && Cooling(s', k.name, v.cooldownUntil.value))
            && (!v.admitted && !CoolingDown(s, k.name, now) ==> v.cooldownUntil == Some(now + cfg.cooldown))
            && (!v.admitted ==> v.retryAfter == Some(v.cooldownUntil.value - now))
            && (v.admitted ==> v.retryAfter == None && v.cooldownUntil == None)
  {
    hide Since, Cost, HasMember, Member, Track;
  }

  lemma {:induction false} ClockGoesOn(books: seq<Book>, ops: seq<Op>, cfg: Config, repr: Repr, ticks: iset<Time>,
                                       k: LimitKey, i: nat, j: nat)
    requires IsRun(books, ops, cfg, repr, ticks, k) && i <= j <= |ops|
    ensures books[i].last <= books[j].last
    decreases j
  {
    if i < j {
      hide TryConsume, Release, Without;
      ClockGoesOn(books, ops, cfg, repr, ticks, k, i, j - 1);
      var m := j - 1;
      assert Advances(books[m], ops[m], books[m + 1], cfg, repr, ticks, k);
    }
  }

  lemma {:induction false} StaysCooling(books: seq<Book>, ops: seq<Op>, cfg: Config, repr: Repr, ticks: iset<Time>,
                                        k: LimitKey, i: nat, j: nat, until: Time)
    requires IsRun(books, ops, cfg, repr, ticks, k) && i <= j <= |ops| && Cooling(books[i].s, k.name, until)
    requires books[j].last < until
    ensures Cooling(books[j].s, k.name, until)
    decreases j
  {
    if i < j {
      hide TryConsume, Release, Without, Cooling;
      var m := j - 1;
      assert Advances(books[m], ops[m], books[m + 1], cfg, repr, ticks, k);
      ClockGoesOn(books, ops, cfg, repr, ticks, k, m, j);
      StaysCooling(books, ops, cfg, repr, ticks, k, i, m, until);
      StepCools(books[m], cfg, repr, ticks, k, ops[m], books[j], until);
    }
  }

  /** A cooldown belongs to a tracked counter. */
  lemma {:induction false} CooledIsTracked(books: seq<Book>, ops: seq<Op>, cfg: Config, repr: Repr, ticks: iset<Time>,
                                           k: LimitKey, i: nat)
    requires IsRun(books, ops, cfg, repr, ticks, k) && i <= |ops|
    ensures k.name in books[i].s.cooldowns ==> k.name in books[i].s.windows.items
  {
    if i > 0 {
      hide Charge, Release, Without, Since, Cost, HasMember;
      var j := i - 1;
      CooledIsTracked(books, ops, cfg, repr, ticks, k, j);
      assert Advances(books[j], ops[j], books[j + 1], cfg, repr, ticks, k);
      TrackedStep(books[j], ops[j], books[i], cfg, repr, ticks, k);
    }
  }

  lemma TrackedStep(b: Book, op: Op, b': Book, cfg: Config, repr: Repr, ticks: iset<Time>, k: LimitKey)
    requires Advances(b, op, b', cfg, repr, ticks, k) && (k.name in b.s.cooldowns ==> k.name in b.s.windows.items)
    ensures k.name in b'.s.cooldowns ==> k.name in b'.s.windows.items
  {
    hide Since, Cost, HasMember, Member, TryConsume;
    if op.Consume? {
      if op.key.name == k.name {
        OwnEntries(b.s, cfg, repr, k, op.cost, op.decisionId, op.now);
      } else {
        OtherSpares(b.s, cfg, repr, op.key, op.cost, op.decisionId, op.now, k.name);
      }
    }
  }

  /** The verdict of the call at one position of a run. */
  ghost function VerdictAt(books: seq<Book>, ops: seq<Op>, cfg: Config, repr: Repr, ticks: iset<Time>, k: LimitKey,
                           j: nat): LimitVerdict
    requires IsRun(books, ops, cfg, repr, ticks, k) && j < |ops| && ops[j].Consume?
  {
    assert Advances(books[j], ops[j], books[j + 1], cfg, repr, ticks, k);
    TryConsume(books[j].s, cfg, repr, ops[j].key, ops[j].cost, ops[j].decisionId, ops[j].now).1
  }

  /**
   * After an over-limit rejection, every call before the end of its cooldown is rejected, and told how long to
   * wait.
   */
  lemma CooldownHolds(books: seq<Book>, ops: seq<Op>, cfg: Config, repr: Repr, ticks: iset<Time>, k: LimitKey, i: nat,
                      j: nat)
    requires IsRun(books, ops, cfg, repr, ticks, k) && i < j < |ops|
    requires ops[i].Consume? && ops[i].key == k && ops[j].Consume? && ops[j].key == k
    requires !VerdictAt(books, ops, cfg, repr, ticks, k, i).admitted && !CoolingDown(books[i].s, k.name, ops[i].now)
    requires ops[j].now < ops[i].now + cfg.cooldown
    ensures var v, until := VerdictAt(books, ops, cfg, repr, ticks, k, j), ops[i].now + cfg.cooldown;
            !v.admitted && v.cooldownUntil == Some(until) && v.retryAfter == Some(until - ops[j].now)
  {
    hide Charge, Release, Without, Since, Cost;
    var until := ops[i].now + cfg.cooldown;
    assert Advances(books[i], ops[i], books[i + 1], cfg, repr, ticks, k);
    assert Advances(books[j], ops[j], books[j + 1], cfg, repr, ticks, k);
    CooledIsTracked(books, ops, cfg, repr, ticks, k, i);
    RejectionCools(books[i].s, cfg, repr, k, ops[i].cost, ops[i].decisionId, ops[i].now);
    StaysCooling(books, ops, cfg, repr, ticks, k, i + 1, j, until);
  }

  // ---------------------------------------------------------------------------------------
  // Counters in use are kept
  // ---------------------------------------------------------------------------------------

  function StoreStep(s: Counters, cfg: Config, repr: Repr, op: Op): (r: Counters)
    requires s.Valid() && cfg.Valid()
    ensures r.Valid()
  {
    match op
    case Consume(key, cost, d, now) => TryConsume(s, cfg, repr, key, cost, d, now).0
    case Free(name, d) => Release(s, name, d)
  }

  function StoreAfter(s: Counters, cfg: Config, repr: Repr, ops: seq<Op>): (r: Counters)
    requires s.Valid() && cfg.Valid()
    ensures r.Valid()
    decreases |ops|
  {
    if ops == [] then s else StoreStep(StoreAfter(s, cfg, repr, ops[..|ops| - 1]), cfg, repr, ops[|ops| - 1])
  }

  /** The counter is tracked, and at most so many others were used since. */
  ghost predicate Recent(s: Counters, name: string, n: int) {
    name in s.windows.items && Behind(s.windows.order, name) <= n
  }

  lemma EvictSpares(s: Counters, maxSubjects: nat, name: string)
    requires s.Valid() && name in s.windows.items && Behind(s.windows.order, name) < maxSubjects
    ensures Recent(Evict(s, maxSubjects), name, Behind(s.windows.order, name))
  {
    EvictsOldestFirst(s, maxSubjects);
    var n := if |s.windows.order| <= maxSubjects then 0 else |s.windows.order| - maxSubjects;
    BehindIsInside(s.windows.order, name);
    BehindSuffix(s.windows.order, name, n);
    assert name in Evict(s, maxSubjects).windows.order;
  }

  /** A counter that was not tracked comes last, and no other one gets more than one place older. */
  lemma NewCounter(s: Counters, cfg: Config, key: string)
    requires s.Valid() && cfg.Valid() && key !in s.windows.items
    ensures var order := Present(s, cfg, key).windows.order;
            && order != [] && order[|order| - 1] == key && key !in order[..|order| - 1]
            && MoveToEnd(Present(s, cfg, key).windows, key).order == order
  {
    hide Evict;
    var grown := s.(windows := Assign(s.windows, key, []));
    EvictsOldestFirst(grown, cfg.maxSubjects);
    var order := Present(s, cfg, key).windows.order;
    var n := if |grown.windows.order| <= cfg.maxSubjects then 0 else |grown.windows.order| - cfg.maxSubjects;
    assert order == s.windows.order[n..] + [key];
    assert order[..|order| - 1] == s.windows.order[n..];
    DropLast(s.windows.order[n..], key);
  }

  lemma TrackAges(s: Counters, cfg: Config, key: string, name: string, n: nat)
    requires s.Valid() && cfg.Valid() && Recent(s, name, n) && n + 1 < cfg.maxSubjects
    ensures Recent(Track(s, cfg, key), name, n + 1)
  {
    hide Evict, Behind, MoveToEnd;
    if key in s.windows.items {
      MoveToEndAges(s.windows, key, name);
    } else {
      NewCounter(s, cfg, key);
      AssignAges(s.windows, key, [], name);
      EvictSpares(s.(windows := Assign(s.windows, key, [])), cfg.maxSubjects, name);
    }
  }

  lemma TrackIsYoungest(s: Counters, cfg: Config, key: string)
    requires s.Valid() && cfg.Valid()
    ensures Recent(Track(s, cfg, key), key, 0)
  {
    hide Present, Behind, MoveToEnd;
    MoveToEndAges(Present(s, cfg, key).windows, key, key);
  }

  /** A call changes the order as tracking its key does, and a release not at all. */
  lemma ChargeOrder(s: Counters, cfg: Config, repr: Repr, key: LimitKey, cost: real, d: string, now: Time)
    requires s.Valid() && cfg.Valid()
    ensures var (r, tracked) := (Charge(s, cfg, repr, key, cost, d, now).0, Track(s, cfg, key.name));
            r.windows.order == tracked.windows.order && r.windows.items.Keys == tracked.windows.items.Keys
  {
    hide Track, Since, Cost, HasMember, Member;
  }

  lemma OneCallAges(s: Counters, cfg: Config, repr: Repr, op: Op, name: string, n: nat)
    requires s.Valid() && cfg.Valid() && Recent(s, name, n) && n + 1 < cfg.maxSubjects
    ensures Recent(StoreStep(s, cfg, repr, op), name, n + 1)
  {
    hide Charge, Track, Behind, Without;
    match op
    case Consume(key, cost, d, now) =>
      if !CoolingDown(s, key.name, now) {
        var cleared := s.(cooldowns := s.cooldowns - {key.name});
        TrackAges(cleared, cfg, key.name, name, n);
        ChargeOrder(cleared, cfg, repr, key, cost, d, now);
      }
    case Free(_, _) =>
  }

  lemma {:induction false} RecentStays(s: Counters, cfg: Config, repr: Repr, ops: seq<Op>, name: string)
    requires s.Valid() && cfg.Valid() && Recent(s, name, 0) && |ops| < cfg.maxSubjects
    ensures Recent(StoreAfter(s, cfg, repr, ops), name, |ops|)
  {
    if ops != [] {
      hide Recent, StoreStep;
      var init := ops[..|ops| - 1];
      RecentStays(s, cfg, repr, init, name);
      OneCallAges(StoreAfter(s, cfg, repr, init), cfg, repr, ops[|ops| - 1], name, |init|);
    }
  }

  /**
   * Eviction takes the counter used longest ago: one that was just charged is still tracked after any
   * run of fewer operations than subjects may be tracked, whatever keys they are about.
   */
  lemma CounterInUseIsKept(s: Counters, cfg: Config, repr: Repr, key: LimitKey, cost: real, d: string, now: Time,
                           ops: seq<Op>)
    requires s.Valid() && cfg.Valid() && !CoolingDown(s, key.name, now) && |ops| < cfg.maxSubjects
    ensures key.name in StoreAfter(TryConsume(s, cfg, repr, key, cost, d, now).0, cfg, repr, ops).windows.items
  {
    hide Charge, Track, StoreAfter;
    var cleared := s.(cooldowns := s.cooldowns - {key.name});
    TrackIsYoungest(cleared, cfg, key.name);
    ChargeOrder(cleared, cfg, repr, key, cost, d, now);
    RecentStays(TryConsume(s, cfg, repr, key, cost, d, now).0, cfg, repr, ops, key.name);
  }

  // ---------------------------------------------------------------------------------------
  // Eviction ends a cooldown early
  // ---------------------------------------------------------------------------------------

  lemma FirstCall(cfg: Config, repr: Repr, s: Counters, k: LimitKey, cost: real, d: string, now: Time)
    requires s.Valid() && cfg.Valid() && !CoolingDown(s, k.name, now) && k.name !in s.windows.items
    ensures var (s', v) := TryConsume(s, cfg, repr, k, cost, d, now);
            && (v.admitted <==> cost <= cfg.Ceiling(k.name))
            && (!v.admitted ==> Cooling(s', k.name, now + cfg.cooldown))
            && k.name in s'.windows.items && |s'.windows.order| <= cfg.maxSubjects
  {
    hide Track, Member;
    TrackFits(s.(cooldowns := s.cooldowns - {k.name}), cfg, k.name);
  }

  lemma TrackFits(s: Counters, cfg: Config, key: string)
    requires s.Valid() && cfg.Valid() && key !in s.windows.items
    ensures |Track(s, cfg, key).windows.order| <= cfg.maxSubjects
  {
    hide Evict;
  }

  /**
   * With room for one counter: a counter is rejected and cools down, a call on another one evicts it,
   * and its next call is admitted although the cooldown would have lasted.
   */
  lemma EvictionEndsCooldown(repr: Repr)
    ensures var cfg, a, b := Config(map[], 1.0, 300.0, 1), LimitKey("a", 60.0), LimitKey("b", 60.0);
            var (s1, v1) := TryConsume(EMPTY, cfg, repr, a, 2.0, "d1", 0.0);
            var (s2, v2) := TryConsume(s1, cfg, repr, b, 1.0, "d2", 1.0);
            var v3 := TryConsume(s2, cfg, repr, a, 1.0, "d3", 2.0).1;
            !v1.admitted && Cooling(s1, "a", 300.0) && v2.admitted && v3.admitted
  {
    hide TryConsume, Evict, PlaceOf;
    var cfg, a, b := Config(map[], 1.0, 300.0, 1), LimitKey("a", 60.0), LimitKey("b", 60.0);
    FirstCall(cfg, repr, EMPTY, a, 2.0, "d1", 0.0);
    var s1 := TryConsume(EMPTY, cfg, repr, a, 2.0, "d1", 0.0).0;
    assert s1.windows.order == ["a"];
    assert "b" !in s1.windows.order && "b" !in s1.windows.items;
    NoCooldown(cfg, repr, a, 2.0, "d1", 0.0, "b");
    FirstCall(cfg, repr, s1, b, 1.0, "d2", 1.0);
    EvictsExactly(s1, cfg, repr, b, 1.0, "d2", 1.0, "a");
    EvictionForgets(s1, cfg, repr, b, 1.0, "d2", 1.0, "a");
    var s2 := TryConsume(s1, cfg, repr, b, 1.0, "d2", 1.0).0;
    FirstCall(cfg, repr, s2, a, 1.0, "d3", 2.0);
  }

  lemma NoCooldown(cfg: Config, repr: Repr, k: LimitKey, cost: real, d: string, now: Time, name: string)
    requires cfg.Valid() && name != k.name
    ensures name !in TryConsume(EMPTY, cfg, repr, k, cost, d, now).0.cooldowns
  {
    hide Since, Cost, HasMember, Member, TryConsume, Evict;
    OtherSpares(EMPTY, cfg, repr, k, cost, d, now, name);
  }
}
