/** What the key-service signer computes: its cache, its circuit breaker and its key rotation. */
module Kms {
  import opened Bytes
  import opened OrderedDict

  type Id = string
  type Time = real

  /** The codes the key service computes; it is deterministic. */
  type Service = (Id, Bytes) -> Bytes

  /** How the service reacts to a call, if one is made. */
  datatype Reply = Answers | KeyIsDisabled | Fails

  datatype KmsError = CircuitOpen | KeyDisabled | Unreachable | UnusableMac | UnknownKey | NoKey

  // ---------------------------------------------------------------------------------------
  // Circuit breaker
  // ---------------------------------------------------------------------------------------

  datatype BreakerPolicy = BreakerPolicy(threshold: int, resetAfter: Time) {
    predicate Valid() { threshold >= 1 }
  }

  datatype Breaker = Breaker(failures: nat, openedAt: Option<Time>)

  const CLOSED := Breaker(0, None)

  predicate IsOpen(b: Breaker, policy: BreakerPolicy, now: Time) {
    b.openedAt.Some? && now - b.openedAt.value < policy.resetAfter
  }

  function Failure(b: Breaker, policy: BreakerPolicy, now: Time): Breaker {
    Breaker(b.failures + 1, if b.failures + 1 >= policy.threshold then Some(now) else b.openedAt)
  }

  function Failures(b: Breaker, policy: BreakerPolicy, times: seq<Time>): Breaker {
    if times == [] then b else Failure(Failures(b, policy, times[..|times| - 1]), policy, times[|times| - 1])
  }

  /** The circuit opens with the failure that completes the threshold, and again with every one after it. */
  lemma {:induction false} OpensAtThreshold(policy: BreakerPolicy, times: seq<Time>)
    requires policy.Valid()
    ensures Failures(CLOSED, policy, times) ==
            Breaker(|times|, if |times| >= policy.threshold then Some(times[|times| - 1]) else None)
  {
    if times != [] { OpensAtThreshold(policy, times[..|times| - 1]); }
  }

  // ---------------------------------------------------------------------------------------
  // Cache
  // ---------------------------------------------------------------------------------------

  type CacheKey = (Id, Bytes)

  type Cache = Ordered<CacheKey, Bytes>

  const EMPTY: Cache := Ordered(map[], [])

  function CacheGet(c: Cache, size: nat, k: CacheKey): (r: (Cache, Option<Bytes>))
    requires c.Valid()
    ensures r.0.Valid() && r.0.items == c.items && |r.0.order| == |c.order|
    ensures r.1.Some? ==> k in c.items && r.1.value == c.items[k]
  {
    if size == 0 || k !in c.items then (c, None) else (MoveToEnd(c, k), Some(c.items[k]))
  }

  function CachePut(c: Cache, size: nat, k: CacheKey, mac: Bytes): (r: Cache)
    requires c.Valid()
    ensures r.Valid() && (|c.order| <= size ==> |r.order| <= size)
    ensures forall x :: x in r.items ==>
              (x == k && size > 0 && r.items[x] == mac) || (x in c.items && r.items[x] == c.items[x])
  {
    if size == 0 then c else Trim(MoveToEnd(Assign(c, k, mac), k), size)
  }

  // ---------------------------------------------------------------------------------------
  // Signing and verifying
  // ---------------------------------------------------------------------------------------

  datatype State = State(keyId: Id, historic: seq<Id>, size: nat, cache: Cache, breaker: Breaker)

  /** The result of a call, and whether the key service was contacted. */
  datatype Answer<T> = Answer(result: Result<T, KmsError>, called: bool)

  /** `dict.fromkeys`: the first occurrence of each key, in order. */
  function FromKeys(ids: seq<Id>): (r: seq<Id>)
    ensures forall x :: x in r <==> x in ids
    ensures NoRepeats(r)
    ensures ids != [] ==> r != [] && r[0] == ids[0]
  {
    if ids == [] then [] else [ids[0]] + Drop(FromKeys(ids[1..]), ids[0])
  }

  function KnownKeys(s: State): seq<Id> { FromKeys([s.keyId] + s.historic) }

  /** Asking the service, unless the circuit is open. */
  function Ask(b: Breaker, policy: BreakerPolicy, now: Time, reply: Reply): (Breaker, Result<(), KmsError>, bool) {
    if IsOpen(b, policy, now) then (b, Err(CircuitOpen), false)
    else
      match reply
      case KeyIsDisabled => (b, Err(KeyDisabled), true)
      case Fails => (Failure(b, policy, now), Err(Unreachable), true)
      case Answers => (CLOSED, Ok(()), true)
  }

  function Mac(s: State, policy: BreakerPolicy, service: Service, message: Bytes, now: Time,
               reply: Reply): (r: (State, Answer<Bytes>))
    requires s.cache.Valid()
    ensures r.0.cache.Valid()
  {
    var (cache, cached) := CacheGet(s.cache, s.size, (s.keyId, message));
    if cached.Some? then (s.(cache := cache), Answer(Ok(cached.value), false))
    else
      var (breaker, asked, called) := Ask(s.breaker, policy, now, reply);
      if asked.Err? then (s.(breaker := breaker), Answer(Err(asked.error), called))
      else
        var mac := service(s.keyId, message);
        if |mac| < 32 then (s.(breaker := breaker), Answer(Err(UnusableMac), called))
        else (s.(breaker := breaker, cache := CachePut(s.cache, s.size, (s.keyId, message), mac)),
              Answer(Ok(mac), called))
  }

  function Verify(s: State, policy: BreakerPolicy, service: Service, message: Bytes, mac: Bytes, keyId: Id, now: Time,
                  reply: Reply):
    (r: (State, Answer<bool>))
    requires s.cache.Valid()
    ensures r.0.cache.Valid()
  {
    if keyId !in KnownKeys(s) then (s, Answer(Err(UnknownKey), false))
    else
      var (cache, cached) := CacheGet(s.cache, s.size, (keyId, message));
      if cached.Some? then (s.(cache := cache), Answer(Ok(cached.value == mac), false))
      else
        var (breaker, asked, called) := Ask(s.breaker, policy, now, reply);
        (s.(breaker := breaker),
         Answer(if asked.Err? then Err(asked.error) else Ok(service(keyId, message) == mac), called))
  }

  // ---------------------------------------------------------------------------------------
  // Every run
  // ---------------------------------------------------------------------------------------

  datatype Op =
    | DoMac(message: Bytes, now: Time, reply: Reply)
    | DoVerify(message: Bytes, mac: Bytes, keyId: Id, now: Time, reply: Reply)

  /** Whatever is cached is what the service says. */
  ghost predicate Truthful(s: State, service: Service) {
    && s.cache.Valid() && |s.cache.order| <= s.size
    && forall k :: k in s.cache.items ==> s.cache.items[k] == service(k.0, k.1) && |s.cache.items[k]| >= 32
  }

  function Apply(s: State, policy: BreakerPolicy, service: Service, op: Op): (r: State)
    requires s.cache.Valid()
    ensures r.cache.Valid()
  {
    match op
    case DoMac(message, now, reply) => Mac(s, policy, service, message, now, reply).0
    case DoVerify(message, mac, keyId, now, reply) => Verify(s, policy, service, message, mac, keyId, now, reply).0
  }

  function Fresh(keyId: Id, historic: seq<Id>, size: nat, breaker: Breaker): State {
    State(keyId, historic, size, EMPTY, breaker)
  }

  function After(s: State, policy: BreakerPolicy, service: Service, ops: seq<Op>): (r: State)
    requires s.cache.Valid()
    ensures r.cache.Valid()
    decreases |ops|
  {
    if ops == [] then s else Apply(After(s, policy, service, ops[..|ops| - 1]), policy, service, ops[|ops| - 1])
  }

  lemma MacKeeps(s: State, policy: BreakerPolicy, service: Service, message: Bytes, now: Time, reply: Reply)
    requires Truthful(s, service)
    ensures var s' := Mac(s, policy, service, message, now, reply).0;
            Truthful(s', service) && (s'.keyId, s'.historic, s'.size) == (s.keyId, s.historic, s.size)
  {
    hide MoveToEnd, Trim, Assign;
  }

  lemma VerifyKeeps(s: State, policy: BreakerPolicy, service: Service, message: Bytes, mac: Bytes, keyId: Id,
                    now: Time, reply: Reply)
    requires Truthful(s, service)
    ensures var s' := Verify(s, policy, service, message, mac, keyId, now, reply).0;
            Truthful(s', service) && (s'.keyId, s'.historic, s'.size) == (s.keyId, s.historic, s.size)
  {
    hide MoveToEnd, FromKeys;
  }

  lemma {:induction false} RunKeeps(s: State, policy: BreakerPolicy, service: Service, ops: seq<Op>)
    requires Truthful(s, service)
    ensures var s' := After(s, policy, service, ops);
            Truthful(s', service) && (s'.keyId, s'.historic, s'.size) == (s.keyId, s.historic, s.size)
  {
    if ops != [] {
      hide Truthful, Mac, Verify;
      RunKeeps(s, policy, service, ops[..|ops| - 1]);
      var s' := After(s, policy, service, ops[..|ops| - 1]);
      match ops[|ops| - 1]
      case DoMac(message, now, reply) => MacKeeps(s', policy, service, message, now, reply);
      case DoVerify(message, mac, keyId, now, reply) => VerifyKeeps(s', policy, service, message, mac, keyId, now,
                                                                    reply);
    }
  }

  /**
   * After any run, with any cache size and so any pattern of evictions, a code is what the service
   * itself would return, and only a code at least 32 bytes long; the cache stays within its bound.
   */
  lemma MacIsTransparent(keyId: Id, historic: seq<Id>, size: nat, breaker: Breaker, policy: BreakerPolicy,
                         service: Service,
                         ops: seq<Op>, message: Bytes, now: Time, reply: Reply)
    ensures var s := After(Fresh(keyId, historic, size, breaker), policy, service, ops);
            var a, bare :=
                  Mac(s, policy, service, message, now, reply).1,
                  Mac(s.(size := 0), policy, service, message, now, reply).1;
            && |s.cache.order| <= size
            && (a.result.Ok? ==> a.result.value == service(keyId, message) && |a.result.value| >= 32)
            && (bare.result.Ok? ==> bare.called && a.result == bare.result)
            && (a.result != bare.result ==>
                  a.result == Ok(service(keyId, message)) && !a.called && (s.keyId, message) in s.cache.items)
  {
    hide After, MoveToEnd, CachePut;
    RunKeeps(Fresh(keyId, historic, size, breaker), policy, service, ops);
  }

  lemma VerifyIsTransparent(keyId: Id, historic: seq<Id>, size: nat, breaker: Breaker, policy: BreakerPolicy,
                            service: Service,
                            ops: seq<Op>, message: Bytes, mac: Bytes, under: Id, now: Time, reply: Reply)
    ensures var s := After(Fresh(keyId, historic, size, breaker), policy, service, ops);
            var a, bare := Verify(s, policy, service, message, mac, under, now, reply).1,
                           Verify(s.(size := 0), policy, service, message, mac, under, now, reply).1;
            && (a.result.Ok? ==>
                  a.result.value == (service(under, message) == mac) && (under == keyId || under in historic))
            && (bare.result.Ok? ==> bare.called && a.result == bare.result)
            && (a.result == Err(UnknownKey) <==> under != keyId && under !in historic)
  {
    hide After, MoveToEnd;
    RunKeeps(Fresh(keyId, historic, size, breaker), policy, service, ops);
  }

  /** A code is at hand without asking. */
  predicate Held(s: State, under: Id, message: Bytes) { s.size > 0 && (under, message) in s.cache.items }

  predicate Open(s: State, policy: BreakerPolicy, now: Time) {
    s.breaker.openedAt.Some? && now < s.breaker.openedAt.value + policy.resetAfter
  }

  /**
   * After any run, signing succeeds exactly if the code is held, or the circuit lets the call through,
   * the service answers and its code has at least 32 bytes; and each error has its one cause.
   */
  lemma MacExactly(keyId: Id, historic: seq<Id>, size: nat, breaker: Breaker, policy: BreakerPolicy, service: Service,
                   ops: seq<Op>, message: Bytes, now: Time, reply: Reply)
    ensures var s := After(Fresh(keyId, historic, size, breaker), policy, service, ops);
            var a, code := Mac(s, policy, service, message, now, reply).1, service(keyId, message);
            var held, open := Held(s, keyId, message), Open(s, policy, now);
            && (a.called <==> !held && !open)
            && (a.result.Ok? <==> held || (a.called && reply == Answers && |code| >= 32))
            && (a.result.Ok? ==> a.result.value == code)
            && (a.result == Err(CircuitOpen) <==> !held && open)
            && (a.result == Err(KeyDisabled) <==> a.called && reply == KeyIsDisabled)
            && (a.result == Err(Unreachable) <==> a.called && reply == Fails)
            && (a.result == Err(UnusableMac) <==> a.called && reply == Answers && |code| < 32)
  {
    hide After, MoveToEnd, CachePut;
    RunKeeps(Fresh(keyId, historic, size, breaker), policy, service, ops);
  }

  /** After any run, verifying answers exactly for a known key whose code is held or can be asked for. */
  lemma VerifyExactly(keyId: Id, historic: seq<Id>, size: nat, breaker: Breaker, policy: BreakerPolicy,
                      service: Service, ops: seq<Op>, message: Bytes, mac: Bytes, under: Id, now: Time, reply: Reply)
    ensures var s := After(Fresh(keyId, historic, size, breaker), policy, service, ops);
            var a := Verify(s, policy, service, message, mac, under, now, reply).1;
            var held, open, known := Held(s, under, message), Open(s, policy, now), under == keyId || under in historic;
            && (a.called <==> known && !held && !open)
            && (a.result.Ok? <==> known && (held || (a.called && reply == Answers)))
            && (a.result.Ok? ==> a.result.value == (service(under, message) == mac))
            && (a.result == Err(UnknownKey) <==> !known)
            && (a.result == Err(CircuitOpen) <==> known && !held && open)
            && (a.result == Err(KeyDisabled) <==> a.called && reply == KeyIsDisabled)
            && (a.result == Err(Unreachable) <==> a.called && reply == Fails)
  {
    hide After, MoveToEnd;
    RunKeeps(Fresh(keyId, historic, size, breaker), policy, service, ops);
  }

  lemma PutIsHeld(c: Cache, size: nat, k: CacheKey, mac: Bytes)
    requires c.Valid() && size > 0
    ensures k in CachePut(c, size, k, mac).items && CachePut(c, size, k, mac).items[k] == mac
  {
    var moved := MoveToEnd(Assign(c, k, mac), k);
    assert moved.order[|moved.order| - 1] == k;
    TrimsOldestFirst(moved, size);
    var kept := Trim(moved, size);
    assert kept.order[|kept.order| - 1] == k;
  }

  /** With a cache, what was signed once is signed again without the service, whatever its state. */
  lemma SecondMacIsFree(s: State, policy: BreakerPolicy, service: Service, message: Bytes, now: Time, reply: Reply,
                        later: Time, reply': Reply)
    requires s.cache.Valid() && s.size > 0 && Mac(s, policy, service, message, now, reply).1.result.Ok?
    ensures var (s', a) := Mac(s, policy, service, message, now, reply);
            Mac(s', policy, service, message, later, reply').1 == Answer(a.result, false)
  {
    hide CachePut, MoveToEnd, Trim;
    if |service(s.keyId, message)| >= 32 {
      PutIsHeld(s.cache, s.size, (s.keyId, message), service(s.keyId, message));
    }
  }

  // The cache keeps what was used last.

  ghost predicate Recent(s: State, k: CacheKey, n: int) { k in s.cache.items && Behind(s.cache.order, k) <= n }

  lemma PutAges(c: Cache, size: nat, x: CacheKey, mac: Bytes, k: CacheKey)
    requires c.Valid() && k in c.items && Behind(c.order, k) + 1 < size
    ensures var r := CachePut(c, size, x, mac); k in r.items && Behind(r.order, k) <= Behind(c.order, k) + 1
  {
    hide Assign, MoveToEnd, Trim, Behind;
    var grown := Assign(c, x, mac);
    var moved := MoveToEnd(grown, x);
    if x in c.items || x == k {
      AssignAges(c, x, mac, k);
      MoveToEndAges(grown, x, k);
    } else {
      PutNewAges(c, x, mac, k);
    }
    TrimSpares(moved, size, k);
  }

  /** A new key is the youngest already, so moving it to the end changes nothing. */
  lemma PutNewAges(c: Cache, x: CacheKey, mac: Bytes, k: CacheKey)
    requires c.Valid() && k in c.items && x !in c.items
    ensures var moved := MoveToEnd(Assign(c, x, mac), x);
            k in moved.items && Behind(moved.order, k) == Behind(c.order, k) + 1
  {
    assert x !in c.order;
    DropLast(c.order, x);
    BehindSnoc(c.order, k, x);
  }

  lemma OneCallAges(s: State, policy: BreakerPolicy, service: Service, op: Op, k: CacheKey, n: nat)
    requires s.cache.Valid() && Recent(s, k, n) && n + 1 < s.size
    ensures Recent(Apply(s, policy, service, op), k, n + 1) && Apply(s, policy, service, op).size == s.size
  {
    hide CachePut, MoveToEnd, Behind, Ask, FromKeys;
    match op
    case DoMac(message, now, reply) =>
      var x := (s.keyId, message);
      if x in s.cache.items { MoveToEndAges(s.cache, x, k); }
      PutAges(s.cache, s.size, x, service(s.keyId, message), k);
    case DoVerify(message, mac, under, now, reply) =>
      if (under, message) in s.cache.items { MoveToEndAges(s.cache, (under, message), k); }
  }

  lemma {:induction false} RecentStays(s: State, policy: BreakerPolicy, service: Service, ops: seq<Op>, k: CacheKey)
    requires s.cache.Valid() && Recent(s, k, 0) && |ops| < s.size
    ensures Recent(After(s, policy, service, ops), k, |ops|) && After(s, policy, service, ops).size == s.size
  {
    if ops != [] {
      hide Recent, Apply;
      var init := ops[..|ops| - 1];
      RecentStays(s, policy, service, init, k);
      OneCallAges(After(s, policy, service, init), policy, service, ops[|ops| - 1], k, |init|);
    }
  }

  lemma UsedIsYoungest(s: State, policy: BreakerPolicy, service: Service, message: Bytes, now: Time, reply: Reply)
    requires s.cache.Valid() && s.size > 0 && Mac(s, policy, service, message, now, reply).1.result.Ok?
    ensures var s' := Mac(s, policy, service, message, now, reply).0;
            Recent(s', (s.keyId, message), 0) && s'.size == s.size && s'.keyId == s.keyId
  {
    hide Behind, Trim, Assign, MoveToEnd;
    var k, code := (s.keyId, message), service(s.keyId, message);
    if k in s.cache.items {
      MoveToEndAges(s.cache, k, k);
    } else {
      MoveToEndAges(Assign(s.cache, k, code), k, k);
      TrimSpares(MoveToEnd(Assign(s.cache, k, code), k), s.size, k);
    }
  }

  /**
   * The cache evicts what was used longest ago: a signed message is still held after any run of fewer
   * operations than the cache has places.
   */
  lemma RecentlySignedIsHeld(s: State, policy: BreakerPolicy, service: Service, message: Bytes, now: Time,
                             reply: Reply, ops: seq<Op>)
    requires s.cache.Valid() && |ops| < s.size && Mac(s, policy, service, message, now, reply).1.result.Ok?
    ensures Held(After(Mac(s, policy, service, message, now, reply).0, policy, service, ops), s.keyId, message)
  {
    hide Mac, After;
    UsedIsYoungest(s, policy, service, message, now, reply);
    RecentStays(Mac(s, policy, service, message, now, reply).0, policy, service, ops, (s.keyId, message));
  }

  /** While the circuit is open the service is never contacted; one answered call closes it. */
  lemma OpenMakesNoCall(s: State, policy: BreakerPolicy, service: Service, message: Bytes, mac: Bytes, under: Id,
                        now: Time, reply: Reply)
    requires s.cache.Valid()
    ensures var m, v :=
              Mac(s, policy, service, message, now, reply), Verify(s, policy, service, message, mac, under, now, reply);
            && (IsOpen(s.breaker, policy, now) ==>
                  !m.1.called && !v.1.called && m.0.breaker == s.breaker && v.0.breaker == s.breaker)
            && (m.1.called && reply.Answers? ==> m.0.breaker == CLOSED)
            && (v.1.called && reply.Answers? ==> v.0.breaker == CLOSED)
            && (m.1.called && !reply.Answers? ==> m.1.result.Err?)
  {
    hide CacheGet, CachePut, FromKeys;
  }

  // ---------------------------------------------------------------------------------------
  // An outage of the key service
  // ---------------------------------------------------------------------------------------

  /** Whether the operation reaches the service. */
  predicate Contacts(s: State, policy: BreakerPolicy, service: Service, op: Op)
    requires s.cache.Valid()
  {
    match op
    case DoMac(message, now, reply) => Mac(s, policy, service, message, now, reply).1.called
    case DoVerify(message, mac, keyId, now, reply) =>
      Verify(s, policy, service, message, mac, keyId, now, reply).1.called
  }

  /** What an operation does to the breaker; only a circuit that is not open lets it through. */
  lemma ApplyBreaker(s: State, policy: BreakerPolicy, service: Service, op: Op)
    requires s.cache.Valid()
    ensures Contacts(s, policy, service, op) ==> !IsOpen(s.breaker, policy, op.now)
    ensures Apply(s, policy, service, op).breaker ==
            if !Contacts(s, policy, service, op) || op.reply.KeyIsDisabled? then s.breaker
            else if op.reply.Answers? then CLOSED
            else Failure(s.breaker, policy, op.now)
  {
    hide CacheGet, CachePut, FromKeys;
  }

  /** The operations of a run that reached the service and got this kind of reply. */
  function Met(s: State, policy: BreakerPolicy, service: Service, ops: seq<Op>, reply: Reply): nat
    requires s.cache.Valid()
    decreases |ops|
  {
    if ops == [] then 0
    else
      var init, last := ops[..|ops| - 1], ops[|ops| - 1];
      Met(s, policy, service, init, reply)
      + if last.reply == reply && Contacts(After(s, policy, service, init), policy, service, last) then 1 else 0
  }

  /** Each failing call beyond the threshold came a full reset period after the one before it. */
  ghost predicate Spaced(b: Breaker, policy: BreakerPolicy, from: Time) {
    b.failures >= policy.threshold ==>
      && b.openedAt.Some?
      && from <= b.openedAt.value
      && Periods(b.failures - policy.threshold, policy) <= b.openedAt.value - from
  }

  /** So many reset periods. */
  function Periods(n: int, policy: BreakerPolicy): Time { n as real * policy.resetAfter }

  lemma OneMorePeriod(n: int, policy: BreakerPolicy)
    ensures Periods(n + 1, policy) == Periods(n, policy) + policy.resetAfter && Periods(0, policy) == 0.0
  {
    assert (n + 1) as real == n as real + 1.0;
  }

  lemma FailureSpaced(b: Breaker, policy: BreakerPolicy, from: Time, now: Time)
    requires policy.Valid() && Spaced(b, policy, from) && !IsOpen(b, policy, now) && from <= now
    ensures Spaced(Failure(b, policy, now), policy, from)
  {
    hide Periods;
    OneMorePeriod(b.failures - policy.threshold, policy);
    assert Failure(b, policy, now).failures - policy.threshold == b.failures - policy.threshold + 1;
  }

  lemma {:induction false} OutageSpaced(s: State, policy: BreakerPolicy, service: Service, ops: seq<Op>, from: Time,
                                        until: Time)
    requires policy.Valid() && s.cache.Valid() && s.breaker == CLOSED
    requires forall i :: 0 <= i < |ops| ==> from <= ops[i].now <= until
    requires Met(s, policy, service, ops, Answers) == 0
    ensures var b := After(s, policy, service, ops).breaker;
            && b.failures == Met(s, policy, service, ops, Fails) && Spaced(b, policy, from)
            && (b.openedAt.Some? ==> b.openedAt.value <= until)
  {
    if ops != [] {
      hide Apply, Contacts, Spaced, IsOpen, Periods;
      var init, last := ops[..|ops| - 1], ops[|ops| - 1];
      var s' := After(s, policy, service, init);
      OutageSpaced(s, policy, service, init, from, until);
      ApplyBreaker(s', policy, service, last);
      if Contacts(s', policy, service, last) { FailureSpaced(s'.breaker, policy, from, last.now); }
    }
  }

  /**
   * How often a service that is down is bothered: from a closed circuit on, while nothing is answered,
   * the failing calls beyond the threshold are at most one per reset period, however often it is tried.
   */
  lemma OutageIsQuiet(s: State, policy: BreakerPolicy, service: Service, ops: seq<Op>, from: Time, until: Time)
    requires policy.Valid() && s.cache.Valid() && s.breaker == CLOSED
    requires forall i :: 0 <= i < |ops| ==> from <= ops[i].now <= until
    requires Met(s, policy, service, ops, Answers) == 0
    ensures var failed := Met(s, policy, service, ops, Fails);
            failed >= policy.threshold ==> Periods(failed - policy.threshold, policy) <= until - from
  {
    hide Met, After, Periods;
    OutageSpaced(s, policy, service, ops, from, until);
  }

  // ---------------------------------------------------------------------------------------
  // Rotation
  // ---------------------------------------------------------------------------------------

  function Rotated(s: State, newKey: Id): Result<State, KmsError> {
    if newKey == "" then Err(NoKey)
    else Ok(Fresh(newKey, Drop(FromKeys(KnownKeys(s)), newKey), s.size, s.breaker))
  }

  function Rotations(s: State, keys: seq<Id>): State {
    if keys == [] then s
    else
      var before := Rotations(s, keys[..|keys| - 1]);
      match Rotated(before, keys[|keys| - 1]) case Ok(s') => s' case Err(_) => before
  }

  lemma {:induction false} FromKeysIsIdentity(ids: seq<Id>)
    requires NoRepeats(ids)
    ensures FromKeys(ids) == ids
  {
    if ids != [] { FromKeysIsIdentity(ids[1..]); }
  }

  /** Only an empty key is refused; the new signer shares the breaker and starts without a cache. */
  lemma RotationStarts(s: State, newKey: Id)
    ensures var r := Rotated(s, newKey);
            && (r == Err(NoKey) <==> newKey == "") && (r.Ok? <==> newKey != "")
            && (r.Ok? ==>
                && r.value.keyId == newKey && r.value.size == s.size && r.value.breaker == s.breaker
                && r.value.cache.items == map[])
  {
  }

  lemma RotationKnows(s: State, newKey: Id)
    requires newKey != ""
    ensures var s' := Rotated(s, newKey).value;
            && KnownKeys(s') == [newKey] + Drop(KnownKeys(s), newKey)
            && forall k :: k in KnownKeys(s') <==> k == newKey || k in KnownKeys(s)
  {
    var known := KnownKeys(s);
    FromKeysIsIdentity(known);
    var list := [newKey] + Drop(known, newKey);
    assert list[1..] == Drop(known, newKey);
    FromKeysIsIdentity(list);
  }

  /**
   * After any chain of rotations the current key comes first, no key is listed twice, and every key
   * that ever was current or known still verifies.
   */
  lemma {:induction false} RotationsKnowAll(s: State, keys: seq<Id>)
    requires s.keyId != ""
    ensures var s' := Rotations(s, keys);
            && s'.keyId != "" && KnownKeys(s')[0] == s'.keyId && NoRepeats(KnownKeys(s'))
            && (keys != [] && keys[|keys| - 1] != "" ==> s'.keyId == keys[|keys| - 1])
            && forall k :: k in KnownKeys(s') <==> k in KnownKeys(s) || (k in keys && k != "")
  {
    if keys != [] {
      hide FromKeys, Drop;
      var init, last := keys[..|keys| - 1], keys[|keys| - 1];
      RotationsKnowAll(s, init);
      assert keys == init + [last];
      if last != "" { RotationKnows(Rotations(s, init), last); }
    }
  }
}
