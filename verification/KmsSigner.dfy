/** The key-service signer and its circuit breaker, updated in place. */
module KmsSigner {
  import opened Bytes
  import opened OrderedDict
  import opened Kms

  class CircuitBreaker {
    const policy: BreakerPolicy
    var failures: nat
    var openedAt: Option<Time>

    function View(): Breaker reads this { Breaker(failures, openedAt) }

    constructor (policy: BreakerPolicy)
      requires policy.Valid()
      ensures View() == CLOSED && this.policy == policy
    {
      this.policy, failures, openedAt := policy, 0, None;
    }

    method BeforeCall(now: Time) returns (r: Result<(), KmsError>)
      ensures r == if IsOpen(View(), policy, now) then Err(CircuitOpen) else Ok(())
    {
      if openedAt.Some? && now - openedAt.value < policy.resetAfter { return Err(CircuitOpen); }
      return Ok(());
    }

    method RecordSuccess()
      modifies this
      ensures View() == CLOSED
    {
      failures, openedAt := 0, None;
    }

    method RecordFailure(now: Time)
      modifies this
      ensures View() == Failure(old(View()), policy, now)
    {
      failures := failures + 1;
      if failures >= policy.threshold { openedAt := Some(now); }
    }

    /** One guarded call of the key service, whose reaction is an input. */
    method Guard(now: Time, reply: Reply) returns (r: Result<(), KmsError>, called: bool)
      modifies this
      ensures (View(), r, called) == Ask(old(View()), policy, now, reply)
    {
      r := BeforeCall(now);
      if r.Err? { return r, false; }
      match reply
      case KeyIsDisabled => return Err(KeyDisabled), true;
      case Fails => RecordFailure(now); return Err(Unreachable), true;
      case Answers => RecordSuccess(); return Ok(()), true;
    }
  }

  class KmsMacSigner {
    const service: Service
    const keyId: Id
    const historic: seq<Id>
    const size: nat
    const breaker: CircuitBreaker
    var cache: Cache

    function View(): State reads this, breaker { State(keyId, historic, size, cache, breaker.View()) }

    ghost predicate Valid() reads this { cache.Valid() }

    constructor (service: Service, keyId: Id, historic: seq<Id>, cacheSize: int, breaker: CircuitBreaker)
      requires keyId != ""
      ensures Valid() && this.service == service && this.breaker == breaker
      ensures View() == Fresh(keyId, historic, if cacheSize < 0 then 0 else cacheSize, breaker.View())
    {
      this.service, this.keyId, this.historic, this.breaker := service, keyId, historic, breaker;
      this.size := if cacheSize < 0 then 0 else cacheSize;
      cache := EMPTY;
    }

    method CacheGet(k: CacheKey) returns (r: Option<Bytes>)
      requires Valid()
      modifies this
      ensures Valid() && (cache, r) == Kms.CacheGet(old(cache), size, k)
    {
      if size == 0 || k !in cache.items { return None; }
      r := Some(cache.items[k]);
      cache := MoveToEnd(cache, k);
    }

    method CachePut(k: CacheKey, mac: Bytes)
      requires Valid()
      modifies this
      ensures Valid() && cache == Kms.CachePut(old(cache), size, k, mac)
    {
      if size == 0 { return; }
      cache := MoveToEnd(Assign(cache, k, mac), k);
      ghost var full := cache;
      while |cache.order| > size
        invariant cache.Valid() && Trim(cache, size) == Trim(full, size)
        decreases |cache.order|
      {
        cache := PopOldest(cache);
      }
    }

    method Mac(message: Bytes, now: Time, reply: Reply) returns (a: Answer<Bytes>)
      requires Valid()
      modifies this, breaker
      ensures Valid() && (View(), a) == Kms.Mac(old(View()), breaker.policy, service, message, now, reply)
    {
      hide Kms.CacheGet, Kms.CachePut, Ask;
      var cached := CacheGet((keyId, message));
      if cached.Some? { return Answer(Ok(cached.value), false); }
      assert cache == old(cache) by { MissKeeps(old(cache), size, (keyId, message)); }
      var asked, called := breaker.Guard(now, reply);
      if asked.Err? { return Answer(Err(asked.error), called); }
      var mac := service(keyId, message);
      if |mac| < 32 { return Answer(Err(UnusableMac), called); }
      CachePut((keyId, message), mac);
      return Answer(Ok(mac), called);
    }

    method Verify(message: Bytes, mac: Bytes, under: Id, now: Time, reply: Reply) returns (a: Answer<bool>)
      requires Valid()
      modifies this, breaker
      ensures Valid()
      ensures (View(), a) == Kms.Verify(old(View()), breaker.policy, service, message, mac, under, now, reply)
    {
      hide Kms.CacheGet, Ask, FromKeys;
      if under !in KnownKeys(View()) { return Answer(Err(UnknownKey), false); }
      var cached := CacheGet((under, message));
      if cached.Some? { return Answer(Ok(cached.value == mac), false); }
      assert cache == old(cache) by { MissKeeps(old(cache), size, (under, message)); }
      var asked, called := breaker.Guard(now, reply);
      if asked.Err? { return Answer(Err(asked.error), called); }
      return Answer(Ok(service(under, message) == mac), called);
    }

    /** A new signer with an empty cache that shares this one's breaker; this one is left as it is. */
    method WithRotatedKey(newKey: Id) returns (r: Result<KmsMacSigner, KmsError>)
      ensures r.Ok? ==> fresh(r.value) && r.value.Valid() && r.value.breaker == breaker && r.value.service == service
      ensures r.Ok? ==> Rotated(View(), newKey) == Ok(r.value.View())
      ensures r.Err? ==> Rotated(View(), newKey) == Err(r.error)
    {
      hide FromKeys, Drop;
      if newKey == "" { return Err(NoKey); }
      var kept := Drop(FromKeys(KnownKeys(View())), newKey);
      var s := new KmsMacSigner(service, newKey, kept, size, breaker);
      return Ok(s);
    }
  }

  lemma MissKeeps(c: Cache, size: nat, k: CacheKey)
    requires c.Valid()
    ensures Kms.CacheGet(c, size, k).1.None? ==> Kms.CacheGet(c, size, k).0 == c
  {
  }
}
