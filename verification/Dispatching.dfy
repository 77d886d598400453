/** The dispatcher's locked blocks, and every interleaving of concurrent dispatches. */
module Dispatching {
  import opened Bytes
  import opened Evidence

  /** `Pending` marks a key whose execution has started; the others are terminal. */
  datatype Outcome =
    | Pending
    | Indeterminate(completedAt: Time)
    | Failed(completedAt: Time, errorClass: string)
    | Executed(completedAt: Time, digest: Bytes)

  datatype Refusal = BadReceipt | NoHandler | AtBound

  /** What waiting for the worker gives: a result, an exception, or nothing within the time limit. */
  datatype Ran = Returned(digest: Bytes) | Flagged | Raised(errorClass: string) | TimedOut

  datatype Request = Request(action: string, key: Id, receipt: Receipt, timeout: Time, now: Time)

  datatype Desk = Desk(handlers: set<string>, outcomes: map<Id, Outcome>, inFlight: int)

  /** What the first locked block decides. */
  datatype Entered = Recorded(outcome: Outcome) | Refused(why: Refusal) | Reserved

  function Enter(d: Desk, max: int, r: Request): (Desk, Entered) {
    if r.key in d.outcomes then (d, Recorded(d.outcomes[r.key]))
    else if r.action !in d.handlers then (d, Refused(NoHandler))
    else if d.inFlight >= max then (d, Refused(AtBound))
    else (d.(inFlight := d.inFlight + 1, outcomes := d.outcomes[r.key := Pending]), Reserved)
  }

  function Concluded(r: Request, ran: Ran): (o: Outcome)
    ensures o != Pending
  {
    match ran
    case Returned(digest) => Executed(r.now, digest)
    case Flagged => Failed(r.now, "ToolOutputQuarantinedError")
    case Raised(errorClass) => Failed(r.now, errorClass)
    case TimedOut => Indeterminate(r.now + r.timeout)
  }

  /**
   * The outcome tells what became of the job: executed with the digest of what it returned, failed
   * with the class of what it raised or with quarantine, or indeterminate at the end of its time.
   */
  predicate Tells(q: Request, ran: Ran, o: Outcome) {
    match o
    case Pending => false
    case Executed(t, digest) => ran == Returned(digest) && t == q.now
    case Failed(t, errorClass) =>
      t == q.now && (ran == Raised(errorClass) || (ran == Flagged && errorClass == "ToolOutputQuarantinedError"))
    case Indeterminate(t) => ran == TimedOut && t == q.now + q.timeout
  }

  /** At most one outcome tells it. */
  lemma TellsOne(q: Request, ran: Ran, o: Outcome, o': Outcome)
    requires Tells(q, ran, o) && Tells(q, ran, o')
    ensures o == o'
  {
  }

  lemma ConcludedTells(q: Request, ran: Ran)
    ensures Tells(q, ran, Concluded(q, ran))
  {
  }

  lemma TellsIsTerminal(q: Request, ran: Ran)
    ensures !Tells(q, ran, Pending)
  {
  }

  function Leave(d: Desk): Desk { d.(inFlight := d.inFlight - 1) }

  function Record(d: Desk, key: Id, o: Outcome): Desk { d.(outcomes := d.outcomes[key := o]) }

  function OutcomeFor(d: Desk, key: Id): Option<Outcome> {
    if key in d.outcomes && d.outcomes[key] != Pending then Some(d.outcomes[key]) else None
  }

  /** A dispatch from beginning to end that nothing interrupts; `issued` is the evidence store's answer. */
  function DispatchAlone(d: Desk, max: int, checked: bool, r: Request, issued: bool, ran: Ran):
    (Desk, Result<Outcome, Refusal>)
  {
    if checked && !issued then (d, Err(BadReceipt))
    else
      var (d', entered) := Enter(d, max, r);
      match entered
      case Recorded(o) => (d', Ok(o))
      case Refused(why) => (d', Err(why))
      case Reserved => (Record(Leave(d'), r.key, Concluded(r, ran)), Ok(Concluded(r, ran)))
  }

  // ---------------------------------------------------------------------------------------
  // Interleavings
  // ---------------------------------------------------------------------------------------

  /** How far a call has come. `Lost` never got its job to the pool; `Broken` gave up after leaving. */
  datatype Phase = Admitted | Holding | Running | Lost | Left(outcome: Outcome) | Broken | Done

  datatype Call = Call(request: Request, phase: Phase)

  datatype Submission = Submission(key: Id, receipt: Receipt)

  /** The desk, every call made so far, the jobs handed to the pool, and the receipts found genuine. */
  datatype World = World(desk: Desk, calls: map<nat, Call>, submitted: seq<Submission>, vouched: set<Receipt>)

  datatype Step =
    | Arrive(id: nat, request: Request, issued: bool)
    | Reserve(id: nat)
    | Submit(id: nat)
    | SubmitFails(id: nat)
    | Finish(id: nat, ran: Ran)
    | Break(id: nat)
    | Publish(id: nat)
    | Register(action: string)

  function SetPhase(w: World, id: nat, phase: Phase): World
    requires id in w.calls
  {
    w.(calls := w.calls[id := w.calls[id].(phase := phase)])
  }

  predicate In(w: World, id: nat, phase: Phase) { id in w.calls && w.calls[id].phase == phase }

  /** One locked block, or one step between two of them, of one call. */
  ghost predicate Next(w: World, w': World, max: int, checked: bool, step: Step) {
    match step
    case Arrive(id, request, issued) =>
      && id !in w.calls && (checked ==> issued)
      && w' == w.(calls := w.calls[id := Call(request, Admitted)], vouched := if issued
                  then w.vouched + {request.receipt} else w.vouched)
    case Reserve(id) =>
      && In(w, id, Admitted)
      && var (desk', entered) := Enter(w.desk, max, w.calls[id].request);
         w' == SetPhase(w, id, if entered.Reserved? then Holding else Done).(desk := desk')
    case Submit(id) =>
      && In(w, id, Holding)
      && var r := w.calls[id].request;
         w' == SetPhase(w, id, Running).(submitted := w.submitted + [Submission(r.key, r.receipt)])
    case SubmitFails(id) => In(w, id, Holding) && w' == SetPhase(w, id, Lost)
    case Finish(id, ran) =>
      && In(w, id, Running)
      && w' == SetPhase(w, id, Left(Concluded(w.calls[id].request, ran))).(desk := Leave(w.desk))
    case Break(id) => In(w, id, Running) && w' == SetPhase(w, id, Broken).(desk := Leave(w.desk))
    case Publish(id) =>
      && id in w.calls && w.calls[id].phase.Left?
      && w' == SetPhase(w, id, Done).(desk := Record(w.desk, w.calls[id].request.key, w.calls[id].phase.outcome))
    case Register(action) => w' == w.(desk := w.desk.(handlers := w.desk.handlers + {action}))
  }

  const START := World(Desk({}, map[], 0), map[], [], {})

  ghost predicate IsTrace(trace: seq<World>, max: int, checked: bool) {
    && |trace| > 0 && trace[0] == START
    && forall i :: 0 <= i < |trace| - 1 ==> Moves(trace[i], trace[i + 1], max, checked)
  }

  ghost predicate Moves(w: World, w': World, max: int, checked: bool) { exists step :: Next(w, w', max, checked, step) }

  // ---------------------------------------------------------------------------------------
  // What every step keeps
  // ---------------------------------------------------------------------------------------

  /** The phases between reserving a key and publishing its outcome. */
  predicate Owns(phase: Phase) { phase.Holding? || phase.Running? || phase.Lost? || phase.Left? || phase.Broken? }

  /** The phases between the increment and the decrement of the counter. */
  predicate Counts(phase: Phase) { phase.Holding? || phase.Running? || phase.Lost? }

  function Counted(calls: map<nat, Call>): set<nat> { set id | id in calls && Counts(calls[id].phase) }

  ghost predicate OwnersPending(w: World) {
    forall id :: id in w.calls && Owns(w.calls[id].phase) ==>
      && w.calls[id].request.key in w.desk.outcomes && w.desk.outcomes[w.calls[id].request.key] == Pending
      && (w.calls[id].phase.Left? ==> w.calls[id].phase.outcome != Pending)
  }

  ghost predicate OwnersDistinct(w: World) {
    forall id, id' ::
             id in w.calls && id' in w.calls && id != id' && Owns(w.calls[id].phase) && Owns(w.calls[id'].phase) ==>
      w.calls[id].request.key != w.calls[id'].request.key
  }

  predicate IsPending(d: Desk, key: Id) { key in d.outcomes && d.outcomes[key] == Pending }

  predicate OwnsKey(w: World, id: nat, key: Id) {
    id in w.calls && Owns(w.calls[id].phase) && w.calls[id].request.key == key
  }

  /** No key is pending by itself: some call reserved it and has not published. */
  ghost predicate PendingOwned(w: World) {
    forall key :: IsPending(w.desk, key) ==> exists id :: OwnsKey(w, id, key)
  }

  ghost predicate OwnersOk(w: World) { OwnersPending(w) && OwnersDistinct(w) && PendingOwned(w) }

  predicate Submitted(submitted: seq<Submission>, key: Id) {
    exists i :: 0 <= i < |submitted| && submitted[i].key == key
  }

  ghost predicate SubmittedOnce(submitted: seq<Submission>) {
    forall i, j :: 0 <= i < j < |submitted| ==> submitted[i].key != submitted[j].key
  }

  /** Exactly the calls past the hand-over have a job in the pool, and a terminal outcome always had one. */
  ghost predicate SubmittedOk(w: World) {
    && SubmittedOnce(w.submitted)
    && (forall key :: Submitted(w.submitted, key) ==> key in w.desk.outcomes)
    && (forall key :: key in w.desk.outcomes && w.desk.outcomes[key] != Pending ==> Submitted(w.submitted, key))
    && (forall id :: id in w.calls && Owns(w.calls[id].phase) ==>
          (Submitted(w.submitted, w.calls[id].request.key) <==>
           !w.calls[id].phase.Holding? && !w.calls[id].phase.Lost?))
  }

  ghost predicate CounterOk(w: World, max: int) {
    w.desk.inFlight == |Counted(w.calls)| && (max >= 0 ==> w.desk.inFlight <= max) && (max < 0 ==> w.desk.inFlight == 0)
  }

  ghost predicate ReceiptsOk(w: World, checked: bool) {
    && (checked ==> forall id :: id in w.calls ==> w.calls[id].request.receipt in w.vouched)
    && (checked ==> forall i :: 0 <= i < |w.submitted| ==> w.submitted[i].receipt in w.vouched)
  }

  ghost predicate Inv(w: World, max: int, checked: bool) {
    OwnersOk(w) && SubmittedOk(w) && CounterOk(w, max) && ReceiptsOk(w, checked)
  }

  lemma PendingKept(w: World, w': World, max: int, checked: bool, step: Step)
    requires OwnersOk(w) && Next(w, w', max, checked, step)
    ensures OwnersPending(w')
  {
  }

  lemma DistinctKept(w: World, w': World, max: int, checked: bool, step: Step)
    requires OwnersOk(w) && Next(w, w', max, checked, step)
    ensures OwnersDistinct(w')
  {
    hide Concluded;
  }

  lemma OwnerKept(w: World, w': World, max: int, checked: bool, step: Step, key: Id) returns (id: nat)
    requires OwnersPending(w) && PendingOwned(w) && Next(w, w', max, checked, step) && IsPending(w'.desk, key)
    ensures OwnsKey(w', id, key)
  {
    hide Concluded;
    if IsPending(w.desk, key) {
      id :| OwnsKey(w, id, key);
    } else {
      id := step.id;
    }
  }

  lemma OwnersKept(w: World, w': World, max: int, checked: bool, step: Step)
    requires OwnersOk(w) && Next(w, w', max, checked, step)
    ensures OwnersOk(w')
  {
    hide Next, OwnersPending, OwnersDistinct, IsPending, OwnsKey;
    PendingKept(w, w', max, checked, step);
    DistinctKept(w, w', max, checked, step);
    forall key | IsPending(w'.desk, key) ensures exists id :: OwnsKey(w', id, key) {
      var id := OwnerKept(w, w', max, checked, step, key);
    }
  }

  lemma ReceiptsKept(w: World, w': World, max: int, checked: bool, step: Step)
    requires ReceiptsOk(w, checked) && Next(w, w', max, checked, step)
    ensures ReceiptsOk(w', checked)
  {
  }

  lemma SubmittedSnoc(submitted: seq<Submission>, x: Submission)
    ensures forall key :: Submitted(submitted + [x], key) <==> Submitted(submitted, key) || x.key == key
    ensures SubmittedOnce(submitted) && !Submitted(submitted, x.key) ==> SubmittedOnce(submitted + [x])
  {
    var more := submitted + [x];
    assert more[|submitted|] == x;
    forall key | Submitted(submitted, key) ensures Submitted(more, key) {
      var i :| 0 <= i < |submitted| && submitted[i].key == key;
      assert more[i].key == key;
    }
  }

  lemma SubmitKeeps(w: World, w': World, max: int, checked: bool, id: nat)
    requires OwnersOk(w) && SubmittedOk(w) && Next(w, w', max, checked, Submit(id))
    ensures SubmittedOk(w')
  {
    hide Submitted, SubmittedOnce;
    var r := w.calls[id].request;
    SubmittedSnoc(w.submitted, Submission(r.key, r.receipt));
  }

  lemma SubmittedKept(w: World, w': World, max: int, checked: bool, step: Step)
    requires OwnersOk(w) && SubmittedOk(w) && Next(w, w', max, checked, step)
    ensures SubmittedOk(w')
  {
    hide Submitted, SubmittedOnce;
    if step.Submit? { SubmitKeeps(w, w', max, checked, step.id); }
  }

  lemma CountAfter(calls: map<nat, Call>, id: nat, call: Call)
    ensures |Counted(calls[id := call])| ==
            |Counted(calls)|
            + (if Counts(call.phase) then 1 else 0) - (if id in calls && Counts(calls[id].phase) then 1 else 0)
  {
    var all := Counted(calls[id := call]);
    if Counts(call.phase) {
      assert all == Counted(calls) + {id};
    } else {
      assert all == Counted(calls) - {id};
    }
  }

  lemma CounterKept(w: World, w': World, max: int, checked: bool, step: Step)
    requires CounterOk(w, max) && Next(w, w', max, checked, step)
    ensures CounterOk(w', max)
  {
    hide Counted;
    if !step.Register? { CountAfter(w.calls, step.id, w'.calls[step.id]); }
  }

  lemma StepKeeps(w: World, w': World, max: int, checked: bool, step: Step)
    requires Inv(w, max, checked) && Next(w, w', max, checked, step)
    ensures Inv(w', max, checked)
  {
    hide Next, OwnersOk, SubmittedOk, CounterOk, ReceiptsOk;
    OwnersKept(w, w', max, checked, step);
    SubmittedKept(w, w', max, checked, step);
    CounterKept(w, w', max, checked, step);
    ReceiptsKept(w, w', max, checked, step);
  }

  lemma {:induction false} TraceKeeps(trace: seq<World>, max: int, checked: bool, i: nat)
    requires IsTrace(trace, max, checked) && i < |trace|
    ensures Inv(trace[i], max, checked)
  {
    if i > 0 {
      hide Next, Inv;
      var j := i - 1;
      TraceKeeps(trace, max, checked, j);
      assert Moves(trace[j], trace[j + 1], max, checked);
      var step :| Next(trace[j], trace[j + 1], max, checked, step);
      StepKeeps(trace[j], trace[j + 1], max, checked, step);
    }
  }

  // ---------------------------------------------------------------------------------------
  // Safety of every interleaving
  // ---------------------------------------------------------------------------------------

  /**
   * However dispatches interleave, a key's handler is handed to the pool at most once, only under a
   * receipt the evidence store vouched for, and every terminal outcome belongs to a job that was.
   */
  lemma AtMostOnce(trace: seq<World>, max: int, checked: bool, i: nat)
    requires IsTrace(trace, max, checked) && i < |trace|
    ensures SubmittedOnce(trace[i].submitted)
    ensures checked ==> forall n :: 0 <= n < |trace[i].submitted| ==> trace[i].submitted[n].receipt in trace[i].vouched
    ensures forall key :: OutcomeFor(trace[i].desk, key).Some? ==> Submitted(trace[i].submitted, key)
  {
    hide OwnersOk, CounterOk, Submitted, SubmittedOnce, Moves;
    TraceKeeps(trace, max, checked, i);
  }

  /** The counter is the number of calls between reserving and leaving, and never exceeds the bound. */
  lemma InFlightExact(trace: seq<World>, max: int, checked: bool, i: nat)
    requires IsTrace(trace, max, checked) && i < |trace| && max >= 0
    ensures trace[i].desk.inFlight == |Counted(trace[i].calls)| && 0 <= trace[i].desk.inFlight <= max
  {
    hide OwnersOk, SubmittedOk, ReceiptsOk, Moves;
    TraceKeeps(trace, max, checked, i);
  }

  /** A recorded key goes from pending to one terminal value and no further. */
  ghost predicate Settles(d: Desk, d': Desk) {
    forall key :: key in d.outcomes ==>
             key in d'.outcomes && (d.outcomes[key] != Pending ==> d'.outcomes[key] == d.outcomes[key])
  }

  lemma StepSettles(w: World, w': World, max: int, checked: bool, step: Step)
    requires OwnersOk(w) && Next(w, w', max, checked, step)
    ensures Settles(w.desk, w'.desk)
  {
  }

  lemma SettlesOn(d: Desk, d': Desk, d'': Desk)
    requires Settles(d, d') && Settles(d', d'')
    ensures Settles(d, d'')
  {
  }

  lemma TraceSettles(trace: seq<World>, max: int, checked: bool, i: nat)
    requires IsTrace(trace, max, checked) && i < |trace| - 1
    ensures Settles(trace[i].desk, trace[i + 1].desk)
  {
    hide Next, SubmittedOk, CounterOk, ReceiptsOk, OwnersOk, Settles;
    TraceKeeps(trace, max, checked, i);
    assert Moves(trace[i], trace[i + 1], max, checked);
    var step :| Next(trace[i], trace[i + 1], max, checked, step);
    StepSettles(trace[i], trace[i + 1], max, checked, step);
  }

  lemma {:induction false} OutcomesAreFinal(trace: seq<World>, max: int, checked: bool, i: nat, j: nat)
    requires IsTrace(trace, max, checked) && i <= j < |trace|
    ensures Settles(trace[i].desk, trace[j].desk)
    decreases j
  {
    if i < j {
      hide Moves, Settles;
      OutcomesAreFinal(trace, max, checked, i, j - 1);
      TraceSettles(trace, max, checked, j - 1);
      SettlesOn(trace[i].desk, trace[j - 1].desk, trace[j].desk);
    }
  }

  // ---------------------------------------------------------------------------------------
  // Keys that never settle
  // ---------------------------------------------------------------------------------------

  /** A continuation of a run. */
  ghost predicate Continues(w: World, run: seq<World>, max: int, checked: bool) {
    && |run| > 0 && run[0] == w
    && forall i :: 0 <= i < |run| - 1 ==> Moves(run[i], run[i + 1], max, checked)
  }

  /** Whatever happens from here on, the key has no outcome. */
  ghost predicate NeverSettles(w: World, max: int, checked: bool, key: Id) {
    forall run: seq<World> :: Continues(w, run, max, checked) ==> IsPending(run[|run| - 1].desk, key)
  }

  /** The call's job was refused by the pool, or it gave up after returning its slot. */
  predicate Stuck(w: World, id: nat) { In(w, id, Lost) || In(w, id, Broken) }

  lemma StuckStep(w: World, w': World, max: int, checked: bool, step: Step, id: nat)
    requires Stuck(w, id) && Next(w, w', max, checked, step)
    ensures Stuck(w', id) && w'.calls[id] == w.calls[id] && (In(w, id, Lost) ==> In(w', id, Lost))
  {
    hide Enter, Concluded;
  }

  /** A stuck call stays as it is, and so does its pending key. */
  lemma {:induction false} StuckStays(w: World, run: seq<World>, max: int, checked: bool, id: nat, i: nat)
    requires OwnersOk(w) && Stuck(w, id) && Continues(w, run, max, checked) && i < |run|
    ensures OwnersOk(run[i]) && Stuck(run[i], id) && run[i].calls[id] == w.calls[id]
    ensures IsPending(run[i].desk, w.calls[id].request.key)
  {
    if i > 0 {
      hide Next, OwnersPending, OwnersDistinct, PendingOwned, Stuck;
      var j := i - 1;
      StuckStays(w, run, max, checked, id, j);
      assert Moves(run[j], run[j + 1], max, checked);
      var step :| Next(run[j], run[j + 1], max, checked, step);
      OwnersKept(run[j], run[i], max, checked, step);
      StuckStep(run[j], run[i], max, checked, step, id);
    }
    StuckIsPending(run[i], id);
  }

  lemma StuckIsPending(w: World, id: nat)
    requires OwnersPending(w) && Stuck(w, id)
    ensures OwnsKey(w, id, w.calls[id].request.key) && IsPending(w.desk, w.calls[id].request.key)
  {
  }

  /** Any other owner can still settle its key, in at most three steps of its own. */
  lemma SettlesSoon(w: World, max: int, checked: bool, id: nat, key: Id, ran: Ran) returns (run: seq<World>)
    requires OwnersPending(w) && OwnsKey(w, id, key) && !Stuck(w, id)
    ensures Continues(w, run, max, checked) && |run| <= 4 && In(run[|run| - 1], id, Done)
    ensures var phase, o := w.calls[id].phase, OutcomeFor(run[|run| - 1].desk, key);
            o.Some? && if phase.Left? then o.value == phase.outcome else Tells(w.calls[id].request, ran, o.value)
  {
    ConcludedTells(w.calls[id].request, ran);
    hide Moves;
    var r := w.calls[id].request;
    var w1 := if w.calls[id].phase != Holding then w
    else SetPhase(w, id, Running).(submitted := w.submitted + [Submission(key, r.receipt)]);
    var w2 := if w.calls[id].phase.Left? then w
    else SetPhase(w1, id, Left(Concluded(r, ran))).(desk := Leave(w1.desk));
    var w3 := SetPhase(w2, id, Done).(desk := Record(w2.desk, key, w2.calls[id].phase.outcome));
    Step1(w2, w3, max, checked, Publish(id));
    run := [w2, w3];
    if !w.calls[id].phase.Left? {
      Step1(w1, w2, max, checked, Finish(id, ran));
      run := [w1, w2, w3];
    }
    if w.calls[id].phase.Holding? {
      Step1(w, w1, max, checked, Submit(id));
      run := [w, w1, w2, w3];
    }
  }

  /**
   * A pending key never gets an outcome exactly if the call that reserved it is stuck: the pool
   * refused its job, or it raised after giving its slot back.
   */
  lemma PendingForGoodExactly(trace: seq<World>, max: int, checked: bool, i: nat, key: Id) returns (id: nat)
    requires IsTrace(trace, max, checked) && i < |trace| && IsPending(trace[i].desk, key)
    ensures OwnsKey(trace[i], id, key) && forall id' :: OwnsKey(trace[i], id', key) ==> id' == id
    ensures NeverSettles(trace[i], max, checked, key) <==> Stuck(trace[i], id)
  {
    hide SubmittedOk, CounterOk, ReceiptsOk, Moves, Stuck;
    var w := trace[i];
    TraceKeeps(trace, max, checked, i);
    id :| OwnsKey(w, id, key);
    if Stuck(w, id) {
      forall run: seq<World> | Continues(w, run, max, checked) ensures IsPending(run[|run| - 1].desk, key) {
        StuckStays(w, run, max, checked, id, |run| - 1);
      }
    } else {
      var run := SettlesSoon(w, max, checked, id, key, TimedOut);
      assert !IsPending(run[|run| - 1].desk, key);
    }
  }

  // ---------------------------------------------------------------------------------------
  // A job that never reaches the pool
  // ---------------------------------------------------------------------------------------

  function Leaked(calls: map<nat, Call>): set<nat> { set id | id in calls && calls[id].phase.Lost? }

  function InThePool(calls: map<nat, Call>): set<nat> {
    set id | id in calls && (calls[id].phase.Holding? || calls[id].phase.Running?)
  }

  lemma {:induction false} LostStays(trace: seq<World>, max: int, checked: bool, i: nat, j: nat, id: nat)
    requires IsTrace(trace, max, checked) && i <= j < |trace| && In(trace[i], id, Lost)
    ensures In(trace[j], id, Lost)
    decreases j
  {
    if i < j {
      hide Next, In;
      LostStays(trace, max, checked, i, j - 1, id);
      var m := j - 1;
      assert Moves(trace[m], trace[m + 1], max, checked);
      var step :| Next(trace[m], trace[m + 1], max, checked, step);
      StuckStep(trace[m], trace[j], max, checked, step, id);
    }
  }

  /**
   * The counter equals the number of calls under way exactly if the pool never refused a job: such a
   * call keeps its slot and its pending key, and once as many are lost as there are slots, every new
   * key is refused.
   */
  lemma LeakExactly(trace: seq<World>, max: int, checked: bool, i: nat)
    requires IsTrace(trace, max, checked) && i < |trace| && max >= 0
    ensures var w := trace[i];
            var running := InThePool(w.calls);
            && w.desk.inFlight == |running| + |Leaked(w.calls)|
            && (w.desk.inFlight == |running| <==> Leaked(w.calls) == {})
            && (|Leaked(w.calls)| >= max ==> forall r: Request :: r.key !in w.desk.outcomes ==>
                  Enter(w.desk, max, r).1.Refused?)
            && (forall id :: id in Leaked(w.calls) ==> OutcomeFor(w.desk, w.calls[id].request.key) == None)
  {
    hide SubmittedOk, ReceiptsOk, Moves;
    TraceKeeps(trace, max, checked, i);
    var w := trace[i];
    var running, leaked := InThePool(w.calls), Leaked(w.calls);
    assert Counted(w.calls) == running + leaked && running * leaked == {};
  }

  /** Three steps that lead from nothing to a call that holds the only key. */
  lemma FirstReserve(max: int, checked: bool, r: Request) returns (w1: World, w2: World, w3: World)
    requires max >= 1
    ensures Next(START, w1, max, checked, Register(r.action)) && Next(w1, w2, max, checked, Arrive(0, r, true))
    ensures Next(w2, w3, max, checked, Reserve(0))
    ensures w3 == World(Desk({r.action}, map[r.key := Pending], 1), map[0 := Call(r, Holding)], [], {r.receipt})
  {
    w1 := START.(desk := Desk({r.action}, map[], 0));
    w2 := w1.(calls := map[0 := Call(r, Admitted)], vouched := {r.receipt});
    w3 := SetPhase(w2, 0, Holding).(desk := Enter(w2.desk, max, r).0);
  }

  /** The leak does happen, in a run of four steps; with one slot the dispatcher is then closed to new keys. */
  lemma LeakHappens(max: int, checked: bool, r: Request) returns (trace: seq<World>)
    requires max >= 1
    ensures IsTrace(trace, max, checked) && |trace| == 5
    ensures var w := trace[4];
            && w.desk.inFlight == 1 && InThePool(w.calls) == {} && Leaked(w.calls) == {0}
            && w.desk.outcomes == map[r.key := Pending] && w.submitted == []
            && (max == 1 ==> forall q: Request :: q.key != r.key ==> Enter(w.desk, max, q).1.Refused?)
  {
    var w1, w2, w3 := FirstReserve(max, checked, r);
    var w4 := SetPhase(w3, 0, Lost);
    Step1(START, w1, max, checked, Register(r.action));
    Step1(w1, w2, max, checked, Arrive(0, r, true));
    Step1(w2, w3, max, checked, Reserve(0));
    Step1(w3, w4, max, checked, SubmitFails(0));
    trace := [START, w1, w2, w3, w4];
    assert forall i :: 0 <= i < 4 ==> Moves(trace[i], trace[i + 1], max, checked) by { hide Moves; }
  }

  lemma BreakTrace(max: int, checked: bool, r: Request) returns (trace: seq<World>)
    requires max >= 1
    ensures IsTrace(trace, max, checked) && |trace| == 6
    ensures trace[5] == World(Desk({r.action}, map[r.key := Pending], 0), map[0 := Call(r, Broken)],
                              [Submission(r.key, r.receipt)], {r.receipt})
  {
    var w1, w2, w3 := FirstReserve(max, checked, r);
    var w4 := SetPhase(w3, 0, Running).(submitted := [Submission(r.key, r.receipt)]);
    var w5 := SetPhase(w4, 0, Broken).(desk := Leave(w4.desk));
    Step1(START, w1, max, checked, Register(r.action));
    Step1(w1, w2, max, checked, Arrive(0, r, true));
    Step1(w2, w3, max, checked, Reserve(0));
    Step1(w3, w4, max, checked, Submit(0));
    Step1(w4, w5, max, checked, Break(0));
    trace := [START, w1, w2, w3, w4, w5];
    assert forall i :: 0 <= i < 5 ==> Moves(trace[i], trace[i + 1], max, checked) by { hide Moves; }
  }

  /**
   * A key is left pending without a leak, too: in a run of five steps the job runs and the slot comes
   * back, but the call raises before it publishes, so no continuation ever settles the key.
   */
  lemma BreakHappens(max: int, checked: bool, r: Request) returns (trace: seq<World>)
    requires max >= 1
    ensures IsTrace(trace, max, checked) && |trace| == 6
    ensures var w := trace[5];
            && w.desk.inFlight == 0 && Leaked(w.calls) == {} && w.submitted == [Submission(r.key, r.receipt)]
            && IsPending(w.desk, r.key) && NeverSettles(w, max, checked, r.key)
  {
    hide IsTrace, NeverSettles;
    trace := BreakTrace(max, checked, r);
    var id := PendingForGoodExactly(trace, max, checked, 5, r.key);
  }

  // ---------------------------------------------------------------------------------------
  // One call by itself
  // ---------------------------------------------------------------------------------------

  lemma Step1(w: World, w': World, max: int, checked: bool, step: Step)
    requires Next(w, w', max, checked, step)
    ensures Moves(w, w', max, checked)
  {
  }

  /** An uninterrupted dispatch that reserves its key is five steps of the interleaved system. */
  lemma AloneIsInterleaving(w: World, max: int, checked: bool, id: nat, r: Request, issued: bool,
                            ran: Ran) returns (trace: seq<World>)
    requires id !in w.calls && (checked ==> issued) && Enter(w.desk, max, r).1.Reserved?
    ensures |trace| == 6 && trace[0] == w && trace[5].desk == DispatchAlone(w.desk, max, checked, r, issued, ran).0
    ensures In(trace[5], id, Done) && trace[5].submitted == w.submitted + [Submission(r.key, r.receipt)]
    ensures forall i :: 0 <= i < 5 ==> Moves(trace[i], trace[i + 1], max, checked)
  {
    var w1 := w.(calls := w.calls[id := Call(r, Admitted)], vouched := if issued then w.vouched + {r.receipt}
                 else w.vouched);
    var w2 := SetPhase(w1, id, Holding).(desk := Enter(w.desk, max, r).0);
    var w3 := SetPhase(w2, id, Running).(submitted := w.submitted + [Submission(r.key, r.receipt)]);
    var w4 := SetPhase(w3, id, Left(Concluded(r, ran))).(desk := Leave(w3.desk));
    var w5 := SetPhase(w4, id, Done).(desk := Record(w4.desk, r.key, Concluded(r, ran)));
    Step1(w, w1, max, checked, Arrive(id, r, issued));
    Step1(w1, w2, max, checked, Reserve(id));
    Step1(w2, w3, max, checked, Submit(id));
    Step1(w3, w4, max, checked, Finish(id, ran));
    Step1(w4, w5, max, checked, Publish(id));
    trace := [w, w1, w2, w3, w4, w5];
    assert forall i :: 0 <= i < 5 ==> Moves(trace[i], trace[i + 1], max, checked) by {
      hide Moves;
    }
  }
}
