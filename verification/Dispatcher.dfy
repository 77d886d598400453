/** The in-memory dispatcher, its state changed one locked block at a time. */
module Dispatcher {
  import opened Bytes
  import opened Evidence
  import opened Dispatching

  class InMemoryDispatcher {
    const maxInFlight: int
    const requireReceipt: bool
    var hasCheck: bool
    var handlers: set<string>
    var outcomes: map<Id, Outcome>
    var inFlight: int

    function View(): Desk reads this { Desk(handlers, outcomes, inFlight) }

    /** Whether a receipt has to be vouched for by the evidence store. */
    predicate Checked() reads this { requireReceipt && hasCheck }

    constructor (maxInFlight: int, requireReceipt: bool, hasCheck: bool)
      ensures View() == Desk({}, map[], 0) && Checked() == (requireReceipt && hasCheck)
      ensures this.maxInFlight == maxInFlight
    {
      this.maxInFlight, this.requireReceipt, this.hasCheck := maxInFlight, requireReceipt, hasCheck;
      handlers, outcomes, inFlight := {}, map[], 0;
    }

    method Register(action: string)
      modifies this`handlers
      ensures handlers == old(handlers) + {action}
    {
      handlers := handlers + {action};
    }

    method Reserve(r: Request) returns (e: Entered)
      modifies this`outcomes, this`inFlight
      ensures (View(), e) == Enter(old(View()), maxInFlight, r)
    {
      if r.key in outcomes { return Recorded(outcomes[r.key]); }
      if r.action !in handlers { return Refused(NoHandler); }
      if inFlight >= maxInFlight { return Refused(AtBound); }
      inFlight := inFlight + 1;
      outcomes := outcomes[r.key := Pending];
      return Reserved;
    }

    /** The whole call, with the store's answer on the receipt and the worker's result as inputs. */
    method Dispatch(r: Request, issued: bool, ran: Ran) returns (result: Result<Outcome, Refusal>)
      modifies this`outcomes, this`inFlight
      ensures (View(), result) == DispatchAlone(old(View()), maxInFlight, Checked(), r, issued, ran)
    {
      if requireReceipt && hasCheck && !issued { return Err(BadReceipt); }
      var entered := Reserve(r);
      match entered
      case Recorded(o) => return Ok(o);
      case Refused(why) => return Err(why);
      case Reserved =>
        var outcome := Concluded(r, ran);
        inFlight := inFlight - 1;
        outcomes := outcomes[r.key := outcome];
        return Ok(outcome);
    }

    method GetOutcome(key: Id) returns (o: Option<Outcome>)
      ensures o == OutcomeFor(View(), key)
    {
      if key !in outcomes { return None; }
      return if outcomes[key] == Pending then None else Some(outcomes[key]);
    }
  }
}
