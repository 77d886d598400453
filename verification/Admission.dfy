/** What the HTTP admission controller computes, and what it promises over whole runs. */
module Admission {
  import opened OrderedDict
  import opened Windows

  /** Positive by the constructor's checks; a negative client cap would empty the dictionary and fail. */
  datatype Rate = Rate(maxRequests: int, window: Time, maxClients: int) {
    predicate Valid() { maxRequests > 0 && window > 0.0 && maxClients >= 0 }
  }

  datatype AdmissionVerdict = AdmissionVerdict(admitted: bool, retryAfter: Time)

  type Buckets = Ordered<string, seq<Time>>

  const EMPTY: Buckets := Ordered(map[], [])

  function Bucket(b: Buckets, client: string): seq<Time> { if client in b.items then b.items[client] else [] }

  /** A recorded request is its own instant. */
  function Instant(t: Time): Time { t }

  /** The bucket is taken out and put back, which makes it the youngest. */
  function PutBack(b: Buckets, rate: Rate, client: string, ts: seq<Time>): (r: Buckets)
    requires b.Valid() && rate.Valid()
    ensures r.Valid() && |r.order| <= rate.maxClients
  {
    Trim(Assign(Remove(b, client), client, ts), rate.maxClients)
  }

  function Check(b: Buckets, rate: Rate, client: string, now: Time): (r: (Buckets, AdmissionVerdict))
    requires b.Valid() && rate.Valid()
    ensures r.0.Valid() && |r.0.order| <= rate.maxClients
  {
    var ts := Since(Instant, Bucket(b, client), now - rate.window);
    if |ts| >= rate.maxRequests then
      var wait := ts[0] + rate.window - now;
      (PutBack(b, rate, client, ts), AdmissionVerdict(false, if wait > 0.0 then wait else 0.0))
    else (PutBack(b, rate, client, ts + [now]), AdmissionVerdict(true, 0.0))
  }

  // ---------------------------------------------------------------------------------------
  // Eviction
  // ---------------------------------------------------------------------------------------

  lemma InSuffix(s: seq<string>, n: nat, x: string)
    requires n < |s| && s[|s| - 1] == x
    ensures x in s[n..]
  {
    assert s[n..][|s| - 1 - n] == x;
  }

  /** The caller's own bucket survives unless nothing may be tracked at all. */
  lemma OwnIsKept(b: Buckets, rate: Rate, client: string, ts: seq<Time>)
    requires b.Valid() && rate.Valid()
    ensures Bucket(PutBack(b, rate, client, ts), client) == if rate.maxClients > 0 then ts else []
  {
    var full := Assign(Remove(b, client), client, ts);
    TrimsOldestFirst(full, rate.maxClients);
    if rate.maxClients > 0 {
      InSuffix(full.order, if |full.order| <= rate.maxClients then 0 else |full.order| - rate.maxClients, client);
    }
  }

  lemma OthersAreKept(b: Buckets, rate: Rate, client: string, now: Time, other: string)
    requires b.Valid() && rate.Valid() && other != client
    requires other in b.items ==> other in Check(b, rate, client, now).0.items
    ensures Bucket(Check(b, rate, client, now).0, other) == Bucket(b, other)
  {
    hide Since;
  }

  // ---------------------------------------------------------------------------------------
  // Windows of the full history
  // ---------------------------------------------------------------------------------------

  ghost predicate Fits(hist: seq<Time>, t: Time, rate: Rate) {
    |InWindow(Instant, hist, t, rate.window)| <= rate.maxRequests
  }

  ghost predicate Rising(ts: seq<Time>) { forall i, j :: 0 <= i < j < |ts| ==> ts[i] <= ts[j] }

  lemma {:induction false} PruningKeepsOrder(ts: seq<Time>, h: Time, t: Time)
    requires Rising(ts) && Before(Instant, ts, t)
    ensures Rising(Since(Instant, ts, h)) && Before(Instant, Since(Instant, ts, h), t)
    ensures forall i :: 0 <= i < |Since(Instant, ts, h)| ==> Since(Instant, ts, h)[i] > h
    decreases |ts|
  {
    if ts != [] {
      var init, last := ts[..|ts| - 1], ts[|ts| - 1];
      PruningKeepsOrder(init, h, last);
    }
  }

  lemma RisingSnoc(ts: seq<Time>, t: Time)
    requires Rising(ts) && Before(Instant, ts, t)
    ensures Rising(ts + [t]) && Before(Instant, ts + [t], t)
  {
  }

  lemma FitsSnoc(hist: seq<Time>, now: Time, t: Time, rate: Rate)
    requires rate.Valid() && Before(Instant, hist, now) && Fits(hist, t, rate)
    requires |Since(Instant, hist, now - rate.window)| < rate.maxRequests
    ensures Fits(hist + [now], t, rate)
  {
    hide Since, InWindow;
    WindowSnoc(Instant, hist, now, t, rate.window);
    SinceIsFewer(Instant, Since(Instant, hist, now - rate.window), t - rate.window);
  }

  // ---------------------------------------------------------------------------------------
  // Every run, seen from one client
  // ---------------------------------------------------------------------------------------

  /** The buckets, every admission the watched client ever had, and the clock. */
  datatype Book = Book(b: Buckets, hist: seq<Time>, last: Time)

  datatype Call = Call(client: string, now: Time)

  ghost function BookStep(x: Book, rate: Rate, watched: string, call: Call): Book
    requires x.b.Valid() && rate.Valid()
  {
    var (b', v) := Check(x.b, rate, call.client, call.now);
    Book(b', if call.client == watched && v.admitted then x.hist + [call.now] else x.hist, call.now)
  }

  ghost predicate BookOk(x: Book, rate: Rate, watched: string) {
    && x.b.Valid()
    && Rising(Bucket(x.b, watched)) && Before(Instant, Bucket(x.b, watched), x.last) && Before(Instant, x.hist, x.last)
    && Agrees(Instant, Bucket(x.b, watched), x.hist, x.last - rate.window)
    && forall t :: Fits(x.hist, t, rate)
  }

  /** The verdict told from the full history: admitted, without a wait, exactly if the window that ends now has room. */
  lemma AdmissionExact(x: Book, rate: Rate, watched: string, now: Time)
    requires rate.Valid() && BookOk(x, rate, watched) && now >= x.last
    ensures Check(x.b, rate, watched, now).1.admitted <==>
            |InWindow(Instant, x.hist, now, rate.window)| < rate.maxRequests
    ensures Check(x.b, rate, watched, now).1.admitted ==> Check(x.b, rate, watched, now).1.retryAfter == 0.0
  {
    hide Since, Until, PutBack, Rising, Fits;
    UntilAll(Instant, x.hist, now - rate.window, now);
  }

  ghost predicate Advances(x: Book, call: Call, x': Book, rate: Rate, watched: string) {
    && x.b.Valid() && rate.Valid() && call.now >= x.last && x' == BookStep(x, rate, watched, call)
    && ((call.client == watched || watched in x.b.items) ==> watched in x'.b.items)
  }

  lemma OwnCallKeeps(x: Book, rate: Rate, watched: string, now: Time)
    requires rate.Valid() && rate.maxClients > 0 && BookOk(x, rate, watched) && now >= x.last
    ensures BookOk(BookStep(x, rate, watched, Call(watched, now)), rate, watched)
  {
    hide Since, Fits, PutBack, Rising, Agrees, Before;
    var ts, h := Bucket(x.b, watched), now - rate.window;
    var kept := Since(Instant, ts, h);
    Later(ts, x.last, now);
    Later(x.hist, x.last, now);
    PruningKeepsOrder(ts, h, now);
    AgreesPruned(Instant, ts, x.hist, x.last - rate.window, h);
    if |kept| >= rate.maxRequests {
      OwnIsKept(x.b, rate, watched, kept);
    } else {
      OwnIsKept(x.b, rate, watched, kept + [now]);
      RisingSnoc(kept, now);
      BeforeSnoc(x.hist, now);
      AgreesSnoc(Instant, kept, x.hist, h, now);
      forall t ensures Fits(x.hist + [now], t, rate) { FitsSnoc(x.hist, now, t, rate); }
    }
  }

  lemma Later(ts: seq<Time>, t: Time, now: Time)
    requires Before(Instant, ts, t) && t <= now
    ensures Before(Instant, ts, now)
  {
  }

  lemma BeforeSnoc(hist: seq<Time>, now: Time)
    requires Before(Instant, hist, now)
    ensures Before(Instant, hist + [now], now)
  {
  }

  lemma TrackedMeansCap(b: Buckets, rate: Rate, client: string, now: Time, c: string)
    requires b.Valid() && rate.Valid() && c in Check(b, rate, client, now).0.items
    ensures rate.maxClients > 0
  {
    assert c in Check(b, rate, client, now).0.order;
  }

  lemma StepKeeps(x: Book, call: Call, x': Book, rate: Rate, watched: string)
    requires BookOk(x, rate, watched) && Advances(x, call, x', rate, watched)
    ensures BookOk(x', rate, watched)
  {
    hide Since, Fits, Check;
    if call.client == watched {
      TrackedMeansCap(x.b, rate, watched, call.now, watched);
      OwnCallKeeps(x, rate, watched, call.now);
    } else {
      OthersAreKept(x.b, rate, call.client, call.now, watched);
    }
  }

  /** A run with a clock that never goes back, in which the watched client is never evicted. */
  ghost predicate IsRun(books: seq<Book>, calls: seq<Call>, rate: Rate, watched: string) {
    && |books| == |calls| + 1 && books[0].b == EMPTY && books[0].hist == []
    && forall i :: 0 <= i < |calls| ==> Advances(books[i], calls[i], books[i + 1], rate, watched)
  }

  lemma {:induction false} RunKeeps(books: seq<Book>, calls: seq<Call>, rate: Rate, watched: string, i: nat)
    requires rate.Valid() && IsRun(books, calls, rate, watched) && i <= |calls|
    ensures BookOk(books[i], rate, watched)
  {
    if i > 0 {
      var j := i - 1;
      RunKeeps(books, calls, rate, watched, j);
      assert Advances(books[j], calls[j], books[j + 1], rate, watched);
      StepKeeps(books[j], calls[j], books[j + 1], rate, watched);
    }
  }

  /** No window, wherever it ends, ever holds more admissions of a client than the rate permits. */
  lemma WindowsNeverOverflow(books: seq<Book>, calls: seq<Call>, rate: Rate, watched: string, i: nat, t: Time)
    requires rate.Valid() && IsRun(books, calls, rate, watched) && i <= |calls|
    ensures |InWindow(Instant, books[i].hist, t, rate.window)| <= rate.maxRequests
  {
    RunKeeps(books, calls, rate, watched, i);
    assert Fits(books[i].hist, t, rate);
  }

  // ---------------------------------------------------------------------------------------
  // The promised retry time
  // ---------------------------------------------------------------------------------------

  lemma RejectedIsFull(x: Book, rate: Rate, client: string, now: Time)
    requires rate.Valid() && BookOk(x, rate, client) && now >= x.last && !Check(x.b, rate, client, now).1.admitted
    ensures |Since(Instant, Bucket(x.b, client), now - rate.window)| == rate.maxRequests
  {
    hide Since, Until, PutBack, Rising;
    UntilAll(Instant, x.hist, now - rate.window, now);
    assert Fits(x.hist, now, rate);
  }

  lemma FullUntil(ts: seq<Time>, h: Time)
    requires Rising(ts) && ts != []
    ensures |Since(Instant, ts, h)| < |ts| <==> h >= ts[0]
  {
    SinceIsFewer(Instant, ts, h);
    if ts[0] > h {
      assert forall i :: 0 < i < |ts| ==> ts[0] <= ts[i];
    }
  }

  /**
   * The wait a rejection announces is exact. As long as the client does not call again and is not
   * evicted, its next call is rejected at every time before the announced one and admitted from then on.
   */
  lemma RetryExact(x: Book, rate: Rate, client: string, now: Time, later: Buckets, t: Time)
    requires rate.Valid() && BookOk(x, rate, client) && now >= x.last && t >= now
    requires !Check(x.b, rate, client, now).1.admitted
    requires later.Valid() && client in Check(x.b, rate, client, now).0.items
    requires Bucket(later, client) == Bucket(Check(x.b, rate, client, now).0, client)
    ensures var wait := Check(x.b, rate, client, now).1.retryAfter;
            wait > 0.0 && (Check(later, rate, client, t).1.admitted <==> t >= now + wait)
  {
    hide Since, Fits, Agrees, PutBack, Rising;
    var ts, h := Bucket(x.b, client), now - rate.window;
    var full := Since(Instant, ts, h);
    RejectedIsFull(x, rate, client, now);
    PruningKeepsOrder(ts, h, now);
    TrackedMeansCap(x.b, rate, client, now, client);
    OwnIsKept(x.b, rate, client, full);
    FullUntil(full, t - rate.window);
  }
}
