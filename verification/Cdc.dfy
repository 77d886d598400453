/** Landing change events in the Bronze table, and every run of it with crashes. */
module Cdc {
  import opened Bytes

  /** `cursor` is the event's `cdc_lsn`, an opaque position that the source orders. */
  datatype Event = Event(decisionId: string, cursor: Option<int>, body: Bytes)

  type Log = seq<Event>

  predicate IsAfter(e: Event, checkpoint: Option<int>) {
    checkpoint.None? || (e.cursor.Some? && e.cursor.value > checkpoint.value)
  }

  function Rest(log: Log, checkpoint: Option<int>): Log {
    if log == [] then []
    else if IsAfter(log[|log| - 1], checkpoint) then Rest(log[..|log| - 1], checkpoint) + [log[|log| - 1]]
    else Rest(log[..|log| - 1], checkpoint)
  }

  /** Up to `limit` events strictly after the checkpoint; what the source returns depends on nothing else. */
  function Poll(log: Log, checkpoint: Option<int>, limit: int): Log {
    var rest := Rest(log, checkpoint);
    if limit <= 0 then [] else if |rest| <= limit then rest else rest[..limit]
  }

  predicate HasKey(rows: Log, key: string) { exists i :: 0 <= i < |rows| && rows[i].decisionId == key }

  /** The rows whose key the table does not hold yet; a batch is not compared with itself. */
  function Unmatched(bronze: Log, rows: Log): Log {
    if rows == [] then []
    else if HasKey(bronze, rows[|rows| - 1].decisionId) then Unmatched(bronze, rows[..|rows| - 1])
    else Unmatched(bronze, rows[..|rows| - 1]) + [rows[|rows| - 1]]
  }

  function AppendBatch(bronze: Log, rows: Log): (Log, nat) {
    (bronze + Unmatched(bronze, rows), |Unmatched(bronze, rows)|)
  }

  function Advance(checkpoint: Option<int>, batch: Log): Option<int>
    requires batch != []
  {
    var last := batch[|batch| - 1].cursor;
    if last.Some? then last else checkpoint
  }

  datatype Sink = Sink(bronze: Log, checkpoint: Option<int>)

  /** Poll, land, advance; the result counts the events seen and the rows inserted. */
  function PollAndLand(log: Log, s: Sink, limit: int): (Sink, nat, nat) {
    var events := Poll(log, s.checkpoint, limit);
    if events == [] then (s, 0, 0)
    else
      var (bronze, inserted) := AppendBatch(s.bronze, events);
      (Sink(bronze, Advance(s.checkpoint, events)), |events|, inserted)
  }

  function Drain(log: Log, s: Sink, limit: int, batches: nat): (Sink, nat)
    decreases batches
  {
    if batches == 0 then (s, 0)
    else
      var (s', seen, inserted) := PollAndLand(log, s, limit);
      if seen == 0 then (s', 0)
      else
        var (s'', total) := Drain(log, s', limit, batches - 1);
        (s'', inserted + total)
  }

  // ---------------------------------------------------------------------------------------
  // A well-behaved source
  // ---------------------------------------------------------------------------------------

  /** Strictly ordered cursors and unique decision ids. */
  ghost predicate Ordered(log: Log) {
    && (forall i :: 0 <= i < |log| ==> log[i].cursor.Some?)
    && (forall i, j :: 0 <= i < j < |log| ==> log[i].cursor.value < log[j].cursor.value)
    && (forall i, j :: 0 <= i < j < |log| ==> log[i].decisionId != log[j].decisionId)
  }

  /** The checkpoint stands after the first `n` events. */
  ghost predicate At(log: Log, checkpoint: Option<int>, n: nat) {
    n <= |log| && if n == 0 then checkpoint.None? else log[n - 1].cursor == checkpoint && checkpoint.Some?
  }

  lemma {:induction false} RestIsSuffix(log: Log, checkpoint: Option<int>, n: nat)
    requires Ordered(log) && At(log, checkpoint, n)
    ensures Rest(log, checkpoint) == log[n..]
  {
    if n == 0 {
      AllAreAfter(log, checkpoint);
    } else {
      SplitRest(log[..n], log[n..], checkpoint);
      assert log == log[..n] + log[n..];
      NoneIsAfter(log[..n], checkpoint);
      AllAreAfter(log[n..], checkpoint);
    }
  }

  lemma {:induction false} AllAreAfter(log: Log, checkpoint: Option<int>)
    requires forall i :: 0 <= i < |log| ==> IsAfter(log[i], checkpoint)
    ensures Rest(log, checkpoint) == log
  {
    hide IsAfter;
    if log != [] { AllAreAfter(log[..|log| - 1], checkpoint); }
  }

  lemma {:induction false} NoneIsAfter(log: Log, checkpoint: Option<int>)
    requires forall i :: 0 <= i < |log| ==> !IsAfter(log[i], checkpoint)
    ensures Rest(log, checkpoint) == []
  {
    hide IsAfter;
    if log != [] { NoneIsAfter(log[..|log| - 1], checkpoint); }
  }

  lemma {:induction false} SplitRest(a: Log, b: Log, checkpoint: Option<int>)
    ensures Rest(a + b, checkpoint) == Rest(a, checkpoint) + Rest(b, checkpoint)
    decreases |b|
  {
    hide IsAfter;
    if b == [] {
      assert a + b == a;
    } else {
      var init := b[..|b| - 1];
      assert (a + b)[..|a + b| - 1] == a + init;
      SplitRest(a, init, checkpoint);
    }
  }

  lemma {:induction false} AllMatched(bronze: Log, rows: Log)
    requires forall i :: 0 <= i < |rows| ==> HasKey(bronze, rows[i].decisionId)
    ensures Unmatched(bronze, rows) == []
  {
    hide HasKey;
    if rows != [] { AllMatched(bronze, rows[..|rows| - 1]); }
  }

  lemma {:induction false} NoneMatched(bronze: Log, rows: Log)
    requires forall i :: 0 <= i < |rows| ==> !HasKey(bronze, rows[i].decisionId)
    ensures Unmatched(bronze, rows) == rows
  {
    hide HasKey;
    if rows != [] { NoneMatched(bronze, rows[..|rows| - 1]); }
  }

  lemma {:induction false} UnmatchedSum(bronze: Log, a: Log, b: Log)
    ensures Unmatched(bronze, a + b) == Unmatched(bronze, a) + Unmatched(bronze, b)
    decreases |b|
  {
    hide HasKey;
    if b == [] {
      assert a + b == a;
    } else {
      var init := b[..|b| - 1];
      assert (a + b)[..|a + b| - 1] == a + init;
      UnmatchedSum(bronze, a, init);
    }
  }

  lemma UnmatchedOfLog(log: Log, n: nat, lo: nat, hi: nat)
    requires Ordered(log) && lo <= hi <= |log| && lo <= n <= |log|
    ensures Unmatched(log[..n], log[lo..hi]) == if hi <= n then [] else log[n..hi]
  {
    hide Ordered, HasKey, Unmatched;
    var mid := if hi <= n then hi else n;
    assert log[lo..hi] == log[lo..mid] + log[mid..hi];
    forall i | 0 <= i < mid - lo ensures HasKey(log[..n], log[lo..mid][i].decisionId) { KeyAt(log, n, lo + i); }
    forall i | 0 <= i < hi - mid ensures !HasKey(log[..n], log[mid..hi][i].decisionId) { KeyAt(log, n, mid + i); }
    UnmatchedSum(log[..n], log[lo..mid], log[mid..hi]);
    AllMatched(log[..n], log[lo..mid]);
    NoneMatched(log[..n], log[mid..hi]);
  }

  lemma KeyAt(log: Log, n: nat, i: nat)
    requires Ordered(log) && n <= |log| && i < |log|
    ensures HasKey(log[..n], log[i].decisionId) <==> i < n
  {
    if i < n { assert log[..n][i].decisionId == log[i].decisionId; }
  }

  // ---------------------------------------------------------------------------------------
  // Every run
  // ---------------------------------------------------------------------------------------

  /** Bronze holds the first `n` events, each once and in order, and the checkpoint is not ahead of it. */
  ghost predicate Landed(log: Log, s: Sink, n: nat, c: nat) {
    n <= |log| && s.bronze == log[..n] && At(log, s.checkpoint, c) && c <= n
  }

  ghost predicate SinkOk(log: Log, s: Sink) { exists n, c :: Landed(log, s, n, c) }

  function Min(a: nat, b: nat): nat { if a <= b then a else b }

  function Max(a: nat, b: nat): nat { if a <= b then b else a }

  /** How far a batch takes a checkpoint that stands after `c` events. */
  function Reach(log: Log, c: nat, limit: int): nat { if limit <= 0 then c else Min(|log|, c + limit) }

  lemma PollIsSlice(log: Log, checkpoint: Option<int>, c: nat, limit: int)
    requires Ordered(log) && At(log, checkpoint, c)
    ensures c <= Reach(log, c, limit) <= |log| && Poll(log, checkpoint, limit) == log[c..Reach(log, c, limit)]
  {
    hide Ordered, Rest;
    RestIsSuffix(log, checkpoint, c);
  }

  lemma LandingAdvances(log: Log, s: Sink, n: nat, c: nat, limit: int)
    requires Ordered(log) && Landed(log, s, n, c)
    ensures var (s', seen, inserted) := PollAndLand(log, s, limit);
            var c' := Reach(log, c, limit);
            && Landed(log, s', Max(n, c'), c')
            && seen == c' - c && inserted == Max(n, c') - n
  {
    hide Rest, Poll, Unmatched;
    var c' := Reach(log, c, limit);
    PollIsSlice(log, s.checkpoint, c, limit);
    UnmatchedOfLog(log, n, c, c');
    if c < c' {
      assert log[c..c'][c' - c - 1] == log[c' - 1];
      if n < c' { assert log[..n] + log[n..c'] == log[..c']; }
    }
  }

  datatype Step =
    | Emit(event: Event)
    | Land(limit: int)
    | CrashAfterWrite(limit: int)
    | LoseCheckpoint

  /** The source grows, a batch lands, a batch lands without its checkpoint, or the checkpoint is lost. */
  ghost predicate Next(log: Log, s: Sink, log': Log, s': Sink, step: Step) {
    match step
    case Emit(event) => log' == log + [event] && s' == s
    case Land(limit) => log' == log && s' == PollAndLand(log, s, limit).0
    case CrashAfterWrite(limit) => log' == log && s' == s.(bronze := PollAndLand(log, s, limit).0.bronze)
    case LoseCheckpoint => log' == log && s' == s.(checkpoint := None)
  }

  lemma StepKeeps(log: Log, s: Sink, log': Log, s': Sink, step: Step)
    requires Ordered(log) && Ordered(log') && SinkOk(log, s) && Next(log, s, log', s', step)
    ensures SinkOk(log', s')
  {
    hide PollAndLand;
    var n: nat, c: nat :| Landed(log, s, n, c);
    match step
    case Emit(event) => assert Landed(log', s', n, c);
    case Land(limit) =>
      LandingAdvances(log, s, n, c, limit);
      assert Landed(log', s', Max(n, Reach(log, c, limit)), Reach(log, c, limit));
    case CrashAfterWrite(limit) =>
      LandingAdvances(log, s, n, c, limit);
      assert Landed(log', s', Max(n, Reach(log, c, limit)), c);
    case LoseCheckpoint => assert Landed(log', s', n, 0);
  }

  ghost predicate IsRun(logs: seq<Log>, sinks: seq<Sink>, steps: seq<Step>) {
    && |logs| == |sinks| == |steps| + 1 && logs[0] == [] && sinks[0] == Sink([], None)
    && (forall i :: 0 <= i < |logs| ==> Ordered(logs[i]))
    && forall i :: 0 <= i < |steps| ==> Next(logs[i], sinks[i], logs[i + 1], sinks[i + 1], steps[i])
  }

  lemma {:induction false} RunKeeps(logs: seq<Log>, sinks: seq<Sink>, steps: seq<Step>, i: nat)
    requires IsRun(logs, sinks, steps) && i <= |steps|
    ensures SinkOk(logs[i], sinks[i])
  {
    if i == 0 {
      assert Landed(logs[0], sinks[0], 0, 0);
    } else {
      hide Next, Ordered, SinkOk;
      var j := i - 1;
      RunKeeps(logs, sinks, steps, j);
      assert Next(logs[j], sinks[j], logs[j + 1], sinks[j + 1], steps[j]);
      StepKeeps(logs[j], sinks[j], logs[i], sinks[i], steps[j]);
    }
  }

  /**
   * After every run, whatever crashed and wherever the cursor was lost, Bronze is a prefix of the
   * source: no event twice, none out of order, and every event up to the checkpoint present. An
   * empty poll means that Bronze is the whole source.
   */
  lemma ExactlyOnce(logs: seq<Log>, sinks: seq<Sink>, steps: seq<Step>, i: nat, limit: int)
    requires IsRun(logs, sinks, steps) && i <= |steps|
    ensures var log, s := logs[i], sinks[i];
            && s.bronze <= log
            && (forall a, b :: 0 <= a < b < |s.bronze| ==> s.bronze[a].decisionId != s.bronze[b].decisionId)
            && (forall e :: e in log && s.checkpoint.Some? && e.cursor.value <= s.checkpoint.value ==> e in s.bronze)
            && (limit > 0 && Poll(log, s.checkpoint, limit) == [] ==> s.bronze == log)
  {
    hide Next, Poll;
    RunKeeps(logs, sinks, steps, i);
    var log, s := logs[i], sinks[i];
    var n: nat, c: nat :| Landed(log, s, n, c);
    PollIsSlice(log, s.checkpoint, c, limit);
    assert log[..|log|] == log;
    forall e | e in log && s.checkpoint.Some? && e.cursor.value <= s.checkpoint.value ensures e in s.bronze {
      var k :| 0 <= k < |log| && log[k] == e;
      assert k < c;
      assert log[..n][k] == e;
    }
  }

  /** Where a number of batches takes the checkpoint. */
  function Reaches(log: Log, c: nat, limit: int, batches: nat): nat
    decreases batches
  {
    if batches == 0 then c else Reaches(log, Reach(log, c, limit), limit, batches - 1)
  }

  lemma {:induction false} ReachesIs(log: Log, c: nat, limit: int, batches: nat)
    requires c <= |log|
    ensures Reaches(log, c, limit, batches) == if limit <= 0 then c else Min(|log|, c + limit * batches)
    decreases batches
  {
    if batches > 0 {
      ReachesIs(log, Reach(log, c, limit), limit, batches - 1);
      assert limit * batches == limit + limit * (batches - 1);
      assert limit > 0 ==> limit * (batches - 1) >= 0;
    }
  }

  lemma {:induction false} ReachesStays(log: Log, c: nat, limit: int, batches: nat)
    requires Reach(log, c, limit) == c
    ensures Reaches(log, c, limit, batches) == c
    decreases batches
  {
    if batches > 0 { ReachesStays(log, c, limit, batches - 1); }
  }

  lemma {:induction false} DrainReaches(log: Log, s: Sink, n: nat, c: nat, limit: int, batches: nat)
    requires Ordered(log) && Landed(log, s, n, c)
    ensures var (s', total) := Drain(log, s, limit, batches);
            var c' := Reaches(log, c, limit, batches);
            c' >= c && Landed(log, s', Max(n, c'), c') && total == Max(n, c') - n
    decreases batches
  {
    if batches > 0 {
      hide PollAndLand, Ordered, Landed;
      LandingAdvances(log, s, n, c, limit);
      var r, c' := PollAndLand(log, s, limit), Reach(log, c, limit);
      if r.1 > 0 {
        DrainReaches(log, r.0, Max(n, c'), c', limit, batches - 1);
      } else {
        ReachesStays(log, c, limit, batches);
      }
    }
  }

  /** Draining lands up to the given number of batches, and counts exactly what it added to Bronze. */
  lemma DrainExactly(log: Log, s: Sink, n: nat, c: nat, limit: int, batches: nat)
    requires Ordered(log) && Landed(log, s, n, c)
    ensures var (s', total) := Drain(log, s, limit, batches);
            var c' := if limit <= 0 then c else Min(|log|, c + limit * batches);
            Landed(log, s', Max(n, c'), c') && total == |s'.bronze| - |s.bronze|
  {
    DrainReaches(log, s, n, c, limit, batches);
    ReachesIs(log, c, limit, batches);
  }
}
