/** What the recorded outcomes of concurrent dispatches say about the jobs that were run. */
module DispatchRuns {
  import opened Bytes
  import opened Evidence
  import opened Dispatching

  /** A run with the steps it took. */
  ghost predicate IsRun(run: seq<World>, steps: seq<Step>, max: int, checked: bool) {
    && |run| == |steps| + 1 && run[0] == START
    && forall i :: 0 <= i < |steps| ==> Next(run[i], run[i + 1], max, checked, steps[i])
  }

  lemma RunIsTrace(run: seq<World>, steps: seq<Step>, max: int, checked: bool)
    requires IsRun(run, steps, max, checked)
    ensures IsTrace(run, max, checked)
  {
    hide Next;
    forall i | 0 <= i < |run| - 1 ensures Moves(run[i], run[i + 1], max, checked) {
      Step1(run[i], run[i + 1], max, checked, steps[i]);
    }
  }

  // ---------------------------------------------------------------------------------------
  // Finished jobs and recorded outcomes
  // ---------------------------------------------------------------------------------------

  /** The call's job for the key finished in this step, with this result. */
  ghost predicate Finished(w: World, steps: seq<Step>, j: int, id: nat, key: Id, ran: Ran) {
    0 <= j < |steps| && steps[j] == Finish(id, ran) && id in w.calls && w.calls[id].request.key == key
  }

  /** A finished job has its outcome with its call, or on record. */
  ghost predicate FinishedOk(w: World, steps: seq<Step>) {
    forall j, id, ran :: 0 <= j < |steps| && steps[j] == Finish(id, ran) ==>
      && id in w.calls && var q := w.calls[id].request;
      || (w.calls[id].phase.Left? && Tells(q, ran, w.calls[id].phase.outcome))
      || (w.calls[id].phase.Done? && q.key in w.desk.outcomes && Tells(q, ran, w.desk.outcomes[q.key]))
  }

  /** Whatever is on record comes from a finished job. */
  ghost predicate RecordedOk(w: World, steps: seq<Step>) {
    && (forall key :: key in w.desk.outcomes && w.desk.outcomes[key] != Pending ==>
          exists j, id, ran :: Finished(w, steps, j, id, key, ran))
    && (forall id :: id in w.calls && w.calls[id].phase.Left? ==>
          exists j, ran :: Finished(w, steps, j, id, w.calls[id].request.key, ran))
  }

  /** No key has two finished jobs. */
  ghost predicate FinishedOnce(w: World, steps: seq<Step>) {
    forall j, id, ran, j', id', ran', key ::
      Finished(w, steps, j, id, key, ran) && Finished(w, steps, j', id', key, ran') ==> j == j' && id == id'
  }

  lemma FinishedKept(w: World, w': World, max: int, checked: bool, steps: seq<Step>, step: Step)
    requires OwnersOk(w) && FinishedOk(w, steps) && Next(w, w', max, checked, step)
    ensures FinishedOk(w', steps + [step])
  {
    hide Concluded, Tells, PendingOwned;
    var longer := steps + [step];
    forall j, id, ran | 0 <= j < |longer| && longer[j] == Finish(id, ran)
      ensures && id in w'.calls && var q := w'.calls[id].request;
              || (w'.calls[id].phase.Left? && Tells(q, ran, w'.calls[id].phase.outcome))
              || (w'.calls[id].phase.Done? && q.key in w'.desk.outcomes && Tells(q, ran, w'.desk.outcomes[q.key]))
    {
      if j < |steps| {
        assert steps[j] == Finish(id, ran);
        TellsIsTerminal(w.calls[id].request, ran);
      } else {
        ConcludedTells(w.calls[id].request, ran);
      }
    }
  }

  lemma RecordedKept(w: World, w': World, max: int, checked: bool, steps: seq<Step>, step: Step)
    requires OwnersOk(w) && RecordedOk(w, steps) && Next(w, w', max, checked, step)
    ensures RecordedOk(w', steps + [step])
  {
    hide Concluded, PendingOwned, OwnersDistinct;
    forall j, id, key, ran | Finished(w, steps, j, id, key, ran) ensures Finished(w', steps + [step], j, id, key, ran) {
    }
    if step.Finish? {
      assert Finished(w', steps + [step], |steps|, step.id, w.calls[step.id].request.key, step.ran);
    }
    if step.Publish? {
      var j, ran :| Finished(w, steps, j, step.id, w.calls[step.id].request.key, ran);
      assert Finished(w', steps + [step], j, step.id, w.calls[step.id].request.key, ran);
    }
  }

  lemma OnceKept(w: World, w': World, max: int, checked: bool, steps: seq<Step>, step: Step)
    requires OwnersOk(w) && FinishedOk(w, steps) && FinishedOnce(w, steps) && Next(w, w', max, checked, step)
    ensures FinishedOnce(w', steps + [step])
  {
    hide Concluded, Tells, PendingOwned;
    var longer := steps + [step];
    forall j, id, ran, j', id', ran', key |
      Finished(w', longer, j, id, key, ran) && Finished(w', longer, j', id', key, ran')
      ensures j == j' && id == id'
    {
      if j < |steps| && j' < |steps| {
        assert Finished(w, steps, j, id, key, ran) && Finished(w, steps, j', id', key, ran');
        OnceAt(w, steps, j, id, ran, j', id', ran', key);
      } else if j < |steps| {
        NotTwice(w, w', max, checked, steps, step, j, id, ran, key);
      } else if j' < |steps| {
        NotTwice(w, w', max, checked, steps, step, j', id', ran', key);
      }
    }
  }

  lemma OnceAt(w: World, steps: seq<Step>, j: int, id: nat, ran: Ran, j': int, id': nat, ran': Ran, key: Id)
    requires FinishedOnce(w, steps) && Finished(w, steps, j, id, key, ran) && Finished(w, steps, j', id', key, ran')
    ensures j == j' && id == id'
  {
  }

  /** A call whose job finishes now holds a pending key that no finished job has. */
  lemma NotTwice(w: World, w': World, max: int, checked: bool, steps: seq<Step>, step: Step, j: int, id: nat, ran: Ran,
                 key: Id)
    requires OwnersOk(w) && FinishedOk(w, steps) && Next(w, w', max, checked, step)
    requires 0 <= j < |steps| && steps[j] == Finish(id, ran) && id in w'.calls && w'.calls[id].request.key == key
    ensures !(step.Finish? && step.id in w'.calls && w'.calls[step.id].request.key == key)
  {
    hide Concluded, Tells, PendingOwned;
    assert id in w.calls;
    TellsIsTerminal(w.calls[id].request, ran);
  }

  lemma {:induction false} RunKeeps(run: seq<World>, steps: seq<Step>, max: int, checked: bool, i: nat)
    requires IsRun(run, steps, max, checked) && i < |run|
    ensures OwnersOk(run[i]) && FinishedOk(run[i], steps[..i])
    ensures RecordedOk(run[i], steps[..i]) && FinishedOnce(run[i], steps[..i])
  {
    RunIsTrace(run, steps, max, checked);
    TraceKeeps(run, max, checked, i);
    if i > 0 {
      hide Next, OwnersOk, FinishedOk, RecordedOk, FinishedOnce, Dispatching.Inv;
      var j := i - 1;
      RunKeeps(run, steps, max, checked, j);
      assert Next(run[j], run[j + 1], max, checked, steps[j]);
      assert steps[..i] == steps[..j] + [steps[j]];
      FinishedKept(run[j], run[i], max, checked, steps[..j], steps[j]);
      RecordedKept(run[j], run[i], max, checked, steps[..j], steps[j]);
      OnceKept(run[j], run[i], max, checked, steps[..j], steps[j]);
      assert OwnersOk(run[i]) by { TraceOwns(run, max, checked, i); }
    }
  }

  lemma TraceOwns(trace: seq<World>, max: int, checked: bool, i: nat)
    requires IsTrace(trace, max, checked) && i < |trace|
    ensures OwnersOk(trace[i])
  {
    hide Moves, OwnersOk, SubmittedOk, CounterOk, ReceiptsOk;
    TraceKeeps(trace, max, checked, i);
  }

  /**
   * An outcome on record is that of the one job its key ever finished: it is executed exactly if the
   * job returned, and with what it returned; failed exactly if the job raised or its result was
   * quarantined; and indeterminate exactly if the job ran out of time.
   */
  lemma OutcomesAreTrue(run: seq<World>, steps: seq<Step>, max: int, checked: bool, i: nat, key: Id)
    returns (j: int, id: nat, ran: Ran)
    requires IsRun(run, steps, max, checked) && i < |run| && OutcomeFor(run[i].desk, key).Some?
    ensures Finished(run[i], steps[..i], j, id, key, ran)
    ensures Tells(run[i].calls[id].request, ran, OutcomeFor(run[i].desk, key).value)
    ensures forall j', id': nat, ran' :: Finished(run[i], steps[..i], j', id', key, ran') ==>
              (j', id', ran') == (j, id, ran)
  {
    RunKeeps(run, steps, max, checked, i);
    hide Next, IsRun, OwnersDistinct, PendingOwned;
    j, id, ran :| Finished(run[i], steps[..i], j, id, key, ran);
  }

  // ---------------------------------------------------------------------------------------
  // One call by itself
  // ---------------------------------------------------------------------------------------

  /**
   * What an uninterrupted dispatch returns and leaves, told by the desk and the job alone. A key that
   * is known is never run again, and only a job that ran adds an outcome.
   */
  lemma DispatchTells(d: Desk, max: int, checked: bool, r: Request, issued: bool, ran: Ran)
    ensures var (d', result) := DispatchAlone(d, max, checked, r, issued, ran);
            if checked && !issued then result == Err(BadReceipt) && d' == d
            else if r.key in d.outcomes then result == Ok(d.outcomes[r.key]) && d' == d
            else if r.action !in d.handlers then result == Err(NoHandler) && d' == d
            else if d.inFlight >= max then result == Err(AtBound) && d' == d
            else
              && result.Ok? && Tells(r, ran, result.value) && OutcomeFor(d', r.key) == Some(result.value)
              && d' == d.(outcomes := d.outcomes[r.key := result.value])
  {
    ConcludedTells(r, ran);
  }
}
