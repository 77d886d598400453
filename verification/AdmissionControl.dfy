/** The HTTP admission controller, updated in place. */
module AdmissionControl {
  import opened OrderedDict
  import opened Windows
  import opened Admission

  method Recent(ts: seq<Time>, cutoff: Time) returns (r: seq<Time>)
    ensures r == Since(Instant, ts, cutoff)
  {
    r := [];
    for i := 0 to |ts|
      invariant r == Since(Instant, ts[..i], cutoff)
    {
      assert ts[..i + 1][..i] == ts[..i];
      if ts[i] > cutoff { r := r + [ts[i]]; }
    }
    assert ts[..|ts|] == ts;
  }

  class HttpAdmissionController {
    const rate: Rate
    var buckets: Buckets

    ghost predicate Valid() reads this { rate.Valid() && buckets.Valid() }

    constructor (rate: Rate)
      requires rate.Valid()
      ensures Valid() && buckets == EMPTY && this.rate == rate
    {
      this.rate, buckets := rate, EMPTY;
    }

    method EvictIfNeeded()
      requires Valid()
      modifies this
      ensures Valid() && buckets == Trim(old(buckets), rate.maxClients)
    {
      while |buckets.order| > rate.maxClients
        invariant buckets.Valid() && Trim(buckets, rate.maxClients) == Trim(old(buckets), rate.maxClients)
        decreases |buckets.order|
      {
        buckets := PopOldest(buckets);
      }
    }

    method Check(client: string, now: Time) returns (v: AdmissionVerdict)
      requires Valid()
      modifies this
      ensures Valid() && (buckets, v) == Admission.Check(old(buckets), rate, client, now)
    {
      hide Since, Trim, Assign, Remove;
      var timestamps := Bucket(buckets, client);
      buckets := Remove(buckets, client);
      timestamps := Recent(timestamps, now - rate.window);
      if |timestamps| >= rate.maxRequests {
        buckets := Assign(buckets, client, timestamps);
        EvictIfNeeded();
        var wait := timestamps[0] + rate.window - now;
        return AdmissionVerdict(false, if wait > 0.0 then wait else 0.0);
      }
      timestamps := timestamps + [now];
      buckets := Assign(buckets, client, timestamps);
      EvictIfNeeded();
      return AdmissionVerdict(true, 0.0);
    }
  }
}
