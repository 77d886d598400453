/** The in-memory limit store, updated in place. */
module LimitStore {
  import opened Bytes
  import opened Text
  import opened OrderedDict
  import opened Windows
  import opened Limits

  datatype StoreError = LimitStoreUnavailable

  method PruneEntries(es: seq<Entry>, horizon: Time) returns (r: seq<Entry>)
    ensures r == Since(AtOf, es, horizon)
  {
    r := [];
    for i := 0 to |es|
      invariant r == Since(AtOf, es[..i], horizon)
    {
      assert es[..i + 1][..i] == es[..i];
      if es[i].at > horizon { r := r + [es[i]]; }
    }
    assert es[..|es|] == es;
  }

  method SumCosts(es: seq<Entry>) returns (total: real)
    ensures total == Cost(es)
  {
    total := 0.0;
    for i := 0 to |es|
      invariant total == Cost(es[..i])
    {
      assert es[..i + 1][..i] == es[..i];
      total := total + es[i].cost;
    }
    assert es[..|es|] == es;
  }

  method DropSuffix(es: seq<Entry>, suffix: string) returns (r: seq<Entry>)
    ensures r == Without(es, suffix)
  {
    r := [];
    for i := 0 to |es|
      invariant r == Without(es[..i], suffix)
    {
      assert es[..i + 1][..i] == es[..i];
      if !EndsWith(es[i].member, suffix) { r := r + [es[i]]; }
    }
    assert es[..|es|] == es;
  }

  method AnyMember(es: seq<Entry>, member: string) returns (found: bool)
    ensures found <==> HasMember(es, member)
  {
    for i := 0 to |es|
      invariant forall j :: 0 <= j < i ==> es[j].member != member
    {
      if es[i].member == member { return true; }
    }
    return false;
  }

  class InMemoryLimitStore {
    const cfg: Config
    const repr: Repr
    var windows: Ordered<string, seq<Entry>>
    var cooldowns: map<string, Time>
    var available: bool

    function View(): Counters reads this { Counters(windows, cooldowns) }

    ghost predicate Valid() reads this { cfg.Valid() && View().Valid() }

    constructor (cfg: Config, repr: Repr)
      requires cfg.Valid()
      ensures Valid() && View() == EMPTY && available && this.cfg == cfg && this.repr == repr
    {
      this.cfg, this.repr := cfg, repr;
      windows, cooldowns, available := Ordered(map[], []), map[], true;
    }

    method EvictIfNeeded()
      requires Valid()
      modifies this
      ensures Valid() && View() == Evict(old(View()), cfg.maxSubjects) && available == old(available)
    {
      while |windows.order| > cfg.maxSubjects
        invariant View().Valid() && Evict(View(), cfg.maxSubjects) == Evict(old(View()), cfg.maxSubjects)
        invariant available == old(available)
        decreases |windows.order|
      {
        var evicted := windows.order[0];
        windows := PopOldest(windows);
        cooldowns := cooldowns - {evicted};
      }
    }

    /** Creates the counter if it is missing, and makes it the youngest. */
    method Touch(name: string)
      requires Valid()
      modifies this
      ensures Valid() && View() == Track(old(View()), cfg, name) && available == old(available)
    {
      if name !in windows.items {
        windows := Assign(windows, name, []);
        EvictIfNeeded();
        assert View() == Present(old(View()), cfg, name);
      }
      windows := MoveToEnd(windows, name);
    }

    method Charge(key: LimitKey, cost: real, decisionId: string, now: Time) returns (v: LimitVerdict)
      requires Valid()
      modifies this
      ensures Valid() && available == old(available)
      ensures (View(), v) == Limits.Charge(old(View()), cfg, repr, key, cost, decisionId, now)
    {
      hide Since, Cost, HasMember, Track, Assign;
      var name, ceiling := key.name, cfg.Ceiling(key.name);
      Touch(name);
      var entries := PruneEntries(windows.items[name], now - key.window);
      windows := Assign(windows, name, entries);
      var member := Member(repr, decisionId, now);
      var repeated := AnyMember(entries, member);
      var observed := SumCosts(entries);
      if repeated { return LimitVerdict(true, ceiling, observed, None, None); }
      if observed + cost > ceiling {
        cooldowns := cooldowns[name := now + cfg.cooldown];
        return LimitVerdict(false, ceiling, observed + cost, Some(cfg.cooldown), Some(now + cfg.cooldown));
      }
      windows := Assign(windows, name, entries + [Entry(now, member, cost)]);
      return LimitVerdict(true, ceiling, observed + cost, None, None);
    }

    method TryConsume(key: LimitKey, cost: real, decisionId: string, now: Time)
      returns (r: Result<LimitVerdict, StoreError>)
      requires Valid()
      modifies this
      ensures Valid() && available == old(available)
      ensures !available ==> r == Err(LimitStoreUnavailable) && View() == old(View())
      ensures available ==>
                r.Ok? && (View(), r.value) == Limits.TryConsume(old(View()), cfg, repr, key, cost, decisionId, now)
    {
      hide Limits.Charge, Cumulative;
      if !available { return Err(LimitStoreUnavailable); }
      if key.name in cooldowns {
        var until := cooldowns[key.name];
        if now < until {
          var observed := GetCumulative(key.name, key.window, now);
          return Ok(LimitVerdict(false, cfg.Ceiling(key.name), observed.value, Some(until - now), Some(until)));
        }
        cooldowns := cooldowns - {key.name};
      }
      assert View() == old(View()).(cooldowns := old(cooldowns) - {key.name});
      var v := Charge(key, cost, decisionId, now);
      return Ok(v);
    }

    method ReleaseBudget(name: string, decisionId: string) returns (r: Result<(), StoreError>)
      requires Valid()
      modifies this
      ensures Valid() && available == old(available)
      ensures (View(), r) == if available then (Release(old(View()), name, decisionId), Ok(()))
              else (old(View()), Err(LimitStoreUnavailable))
    {
      if !available { return Err(LimitStoreUnavailable); }
      var entries := View().Entries(name);
      if entries == [] { return Ok(()); }
      var kept := DropSuffix(entries, ":" + decisionId);
      windows := Assign(windows, name, kept);
      return Ok(());
    }

    method GetCumulative(name: string, window: Time, now: Time) returns (r: Result<real, StoreError>)
      ensures r == if available then Ok(Cumulative(View(), name, window, now)) else Err(LimitStoreUnavailable)
    {
      if !available { return Err(LimitStoreUnavailable); }
      var seen := PruneEntries(View().Entries(name), now - window);
      var total := SumCosts(seen);
      return Ok(total);
    }
  }
}
