/** What the sliding-window limit store computes. */
module Limits {
  import opened Bytes
  import opened Text
  import opened OrderedDict
  import opened Windows

  /** How a timestamp is written inside a member. */
  type Repr = Time -> string

  /** On the instants that occur, distinct ones are written differently, and without a colon. */
  ghost predicate IsRepr(repr: Repr, ticks: iset<Time>) {
    && (forall t :: t in ticks ==> ':' !in repr(t))
    && (forall t, u :: t in ticks && u in ticks && repr(t) == repr(u) ==> t == u)
  }

  /** A counter: its canonical name, which spells the window, and the length of that window. */
  datatype LimitKey = LimitKey(name: string, window: Time)

  datatype Entry = Entry(at: Time, member: string, cost: real)

  datatype LimitVerdict =
    | LimitVerdict(admitted: bool, limit: real, observed: real, retryAfter: Option<Time>, cooldownUntil: Option<Time>)

  /** `max_subjects` below one makes the first consumption fail on a missing key. */
  datatype Config = Config(limits: map<string, real>, defaultLimit: real, cooldown: Time, maxSubjects: int) {
    predicate Valid() { maxSubjects >= 1 }

    function Ceiling(name: string): real { if name in limits then limits[name] else defaultLimit }
  }

  datatype Counters = Counters(windows: Ordered<string, seq<Entry>>, cooldowns: map<string, Time>) {
    ghost predicate Valid() { windows.Valid() }

    function Entries(name: string): seq<Entry> { if name in windows.items then windows.items[name] else [] }
  }

  const EMPTY := Counters(Ordered(map[], []), map[])

  function Member(repr: Repr, decisionId: string, at: Time): string { repr(at) + ":" + decisionId }

  function AtOf(e: Entry): Time { e.at }

  function Cost(es: seq<Entry>): real {
    if es == [] then 0.0 else Cost(es[..|es| - 1]) + es[|es| - 1].cost
  }

  /** Costs add up. */
  lemma {:induction false} CostAdds(a: seq<Entry>, b: seq<Entry>, e: Entry)
    ensures Cost(a + b) == Cost(a) + Cost(b) && Cost([e]) == e.cost && Cost([]) == 0.0
  {
    assert [e][..0] == [] && [e][0] == e;
    if b == [] {
      assert a + b == a;
    } else {
      assert (a + b)[..|a + b| - 1] == a + b[..|b| - 1];
      CostAdds(a, b[..|b| - 1], e);
    }
  }

  function Without(es: seq<Entry>, suffix: string): seq<Entry> {
    if es == [] then []
    else
      var last := es[|es| - 1];
      if EndsWith(last.member, suffix) then Without(es[..|es| - 1], suffix)
      else Without(es[..|es| - 1], suffix) + [last]
  }

  predicate HasMember(es: seq<Entry>, member: string) { exists i :: 0 <= i < |es| && es[i].member == member }

  /** Dropping the counters used longest ago, with their cooldowns, until few enough are left. */
  function Evict(s: Counters, maxSubjects: int): (r: Counters)
    requires s.Valid()
    ensures r.Valid() && |r.windows.order| <= if |s.windows.order| <= maxSubjects || maxSubjects < 0
            then |s.windows.order| else maxSubjects
    decreases |s.windows.order|
  {
    if |s.windows.order| <= maxSubjects || s.windows.order == [] then s
    else Evict(Counters(PopOldest(s.windows), s.cooldowns - {s.windows.order[0]}), maxSubjects)
  }

  function Present(s: Counters, cfg: Config, name: string): (r: Counters)
    requires s.Valid() && cfg.Valid()
    ensures r.Valid() && name in r.windows.items && r.Entries(name) == s.Entries(name)
  {
    if name in s.windows.items then s
    else
      var grown := s.(windows := Assign(s.windows, name, []));
      EvictSparesYoungest(grown, cfg.maxSubjects);
      Evict(grown, cfg.maxSubjects)
  }

  /** The counter made present, older ones evicted, and itself made the youngest. */
  function Track(s: Counters, cfg: Config, name: string): (r: Counters)
    requires s.Valid() && cfg.Valid()
    ensures r.Valid() && name in r.windows.items && r.Entries(name) == s.Entries(name)
  {
    var present := Present(s, cfg, name);
    present.(windows := MoveToEnd(present.windows, name))
  }

  lemma {:induction false} EvictSparesYoungest(s: Counters, maxSubjects: int)
    requires s.Valid() && maxSubjects >= 1 && s.windows.order != []
    ensures var k := s.windows.order[|s.windows.order| - 1]; var r := Evict(s, maxSubjects);
            k in r.windows.items && r.windows.items[k] == s.windows.items[k] && (k in r.cooldowns <==> k in s.cooldowns)
    decreases |s.windows.order|
  {
    if |s.windows.order| > maxSubjects {
      var next := Counters(PopOldest(s.windows), s.cooldowns - {s.windows.order[0]});
      assert s.windows.order[|s.windows.order| - 1] in s.windows.order[1..];
      assert next.windows.order[|next.windows.order| - 1] == s.windows.order[|s.windows.order| - 1];
      EvictSparesYoungest(next, maxSubjects);
    }
  }

  function SetEntries(s: Counters, name: string, es: seq<Entry>): (r: Counters)
    requires s.Valid()
    ensures r.Valid()
  {
    s.(windows := Assign(s.windows, name, es))
  }

  /** Consuming from a counter that is not cooling down. */
  function Charge(s: Counters, cfg: Config, repr: Repr, key: LimitKey, cost: real, decisionId: string,
                  now: Time): (r: (Counters, LimitVerdict))
    requires s.Valid() && cfg.Valid()
    ensures r.0.Valid()
  {
    var name, ceiling := key.name, cfg.Ceiling(key.name);
    var entries, member := Since(AtOf, s.Entries(name), now - key.window), Member(repr, decisionId, now);
    var pruned := SetEntries(Track(s, cfg, name), name, entries);
    if HasMember(entries, member) then (pruned, LimitVerdict(true, ceiling, Cost(entries), None, None))
    else if Cost(entries) + cost > ceiling then
      (pruned.(cooldowns := pruned.cooldowns[name := now + cfg.cooldown]),
       LimitVerdict(false, ceiling, Cost(entries) + cost, Some(cfg.cooldown), Some(now + cfg.cooldown)))
    else
      (SetEntries(pruned, name, entries + [Entry(now, member, cost)]),
       LimitVerdict(true, ceiling, Cost(entries) + cost, None, None))
  }

  predicate CoolingDown(s: Counters, name: string, now: Time) { name in s.cooldowns && now < s.cooldowns[name] }

  function TryConsume(s: Counters, cfg: Config, repr: Repr, key: LimitKey, cost: real, decisionId: string,
                      now: Time): (r: (Counters, LimitVerdict))
    requires s.Valid() && cfg.Valid()
    ensures r.0.Valid()
  {
    if CoolingDown(s, key.name, now) then
      var until := s.cooldowns[key.name];
      (s, LimitVerdict(false, cfg.Ceiling(key.name), Cumulative(s, key.name, key.window, now), Some(until - now),
                       Some(until)))
    else Charge(s.(cooldowns := s.cooldowns - {key.name}), cfg, repr, key, cost, decisionId, now)
  }

  function Release(s: Counters, name: string, decisionId: string): (r: Counters)
    requires s.Valid()
    ensures r.Valid()
  {
    if s.Entries(name) == [] then s else SetEntries(s, name, Without(s.Entries(name), ":" + decisionId))
  }

  function Cumulative(s: Counters, name: string, window: Time, now: Time): real {
    Cost(Since(AtOf, s.Entries(name), now - window))
  }
}
