/** The payout worker's loop as the program runs it (workers/solana_sync.go, db/repositories/solana.go). The ghost trace
    records every command, so the theorems about all traces hold of every run of the loop. */
module PayoutWorker {
  import opened Common
  import opened Ledger
  import opened PayoutModel
  import opened PayoutTheorems

  /** How the commands for one event of a batch end: taking it up, submitting it, and closing it either way. */
  datatype Plan = Plan(mark: Write, submission: Submission, close: Write)

  /** What a batch makes of one of its events. */
  function Handled(e: Event, p: Plan): Event {
    if p.mark.Failed? then e
    else if p.mark.ReplyLost? || p.close.Failed? then e.(status := Processing)
    else if p.submission.Submitted? then e.(status := Done, signature := Some(p.submission.signature))
    else e.(status := Pending, retries := e.retries + 1)
  }

  /** An event taken up and submitted with success. */
  predicate Pays(p: Plan) {
    p.mark.Applied? && p.submission.Submitted?
  }

  class Worker {
    const threshold: int
    var ledger: Ledger
    ghost var at: PayoutModel.Worker
    ghost var sent: set<nat>
    ghost const start: State
    ghost var trace: seq<Step>

    ghost function Snapshot(): State
      reads this
    {
      State(ledger, at, sent)
    }

    ghost predicate Valid()
      reads this
    {
      && threshold > 0 && Start(start) && Legal(start, trace, threshold)
      && Snapshot() == Run(start, trace, threshold) && WorkerSound(Snapshot())
    }

    constructor (threshold: int, credits: map<int, int>, monitors: map<string, MonitorRow>)
      requires threshold > 0
      ensures Valid() && at.Polling? && this.threshold == threshold && ledger == Ledger(credits, monitors, map[], [])
    {
      this.threshold := threshold;
      ledger := Ledger(credits, monitors, map[], []);
      at, sent, trace := Polling, {}, [];
      start := State(Ledger(credits, monitors, map[], []), Polling, {});
    }

    ghost method Record(step: Step, before: State)
      requires threshold > 0 && Start(start) && Legal(start, trace, threshold) && WorkerSound(before)
      requires before == Run(start, trace, threshold) && Enabled(before, step) && Snapshot() == Apply(before, step, threshold)
      modifies this`trace
      ensures Valid() && trace == old(trace) + [step]
    {
      hide Start, Enabled, Apply, WorkerSound;
      WorkerStep(before, step, threshold);
      trace := trace + [step];
      assert trace[..|trace| - 1] == old(trace);
    }

    /** A check is settled next to the worker. */
    method SettleCheck(monitor: string, runner: string)
      requires Valid() && CanSettle(ledger, monitor, runner)
      modifies this
      ensures Valid() && at == old(at) && ledger == Settle(old(ledger), monitor, runner, threshold)
    {
      hide Settle, CanSettle, Start, Legal, Run, WorkerSound;
      ghost var before := Snapshot();
      ledger := Settle(ledger, monitor, runner, threshold);
      Record(Step.SettleCheck(monitor, runner), before);
    }

    method FetchPending(reply: seq<nat>)
      requires Valid() && at.Polling? && IsFetch(ledger.events, reply)
      modifies this`at, this`trace
      ensures Valid() && at == Batch(reply) && trace == old(trace) + [Fetch(reply)]
    {
      hide Settle, CanSettle, Start, Legal, Run, WorkerSound;
      ghost var before := Snapshot();
      at := Batch(reply);
      Record(Fetch(reply), before);
    }

    method MarkProcessing(id: nat, write: Write) returns (ok: bool)
      requires Valid() && at.Batch? && at.todo != [] && id == at.todo[0] && id < |ledger.events|
      modifies this`ledger, this`at, this`trace
      ensures Valid() && ok == write.IsReported() && |old(trace)| < |trace|
      ensures ledger == if write.Failed? then old(ledger) else SetEvent(old(ledger), id, old(ledger).events[id].(status := Processing))
      ensures at == if ok then Sending(id, old(at).todo[1..]) else Batch(old(at).todo[1..])
    {
      hide Settle, CanSettle, Start, Legal, Run, WorkerSound;
      ghost var before := Snapshot();
      if write.TakesEffect() {
        ledger := SetEvent(ledger, id, ledger.events[id].(status := Processing));
      }
      ok := write.IsReported();
      at := if ok then Sending(id, at.todo[1..]) else Batch(at.todo[1..]);
      Record(Step.MarkProcessing(id, write), before);
    }

    method ExecuteRewardTx(id: nat, submission: Submission) returns (signature: Option<string>)
      requires Valid() && at.Sending? && id == at.id && id < |ledger.events|
      modifies this`at, this`sent, this`trace
      ensures Valid() && trace == old(trace) + [Send(id, ledger.events[id].owner, ledger.events[id].amount, submission)]
      ensures signature == if submission.Submitted? then Some(submission.signature) else None
      ensures at == if submission.Submitted? then Succeeded(id, submission.signature, old(at).todo) else Unsent(id, old(at).todo)
      ensures sent == if submission.Submitted? then old(sent) + {id} else old(sent)
    {
      hide Settle, CanSettle, Start, Legal, Run, WorkerSound;
      ghost var before := Snapshot();
      if submission.Submitted? {
        signature := Some(submission.signature);
        at, sent := Succeeded(id, submission.signature, at.todo), sent + {id};
      } else {
        signature := None;
        at := Unsent(id, at.todo);
      }
      Record(Send(id, ledger.events[id].owner, ledger.events[id].amount, submission), before);
    }

    method MarkDone(id: nat, signature: string, write: Write)
      requires Valid() && at.Succeeded? && id == at.id && signature == at.signature && id < |ledger.events|
      modifies this`ledger, this`at, this`trace
      ensures Valid() && at == Batch(old(at).todo) && |old(trace)| < |trace|
      ensures ledger == if write.Failed? then old(ledger)
                        else SetEvent(old(ledger), id, old(ledger).events[id].(status := Done, signature := Some(signature)))
    {
      hide Settle, CanSettle, Start, Legal, Run, WorkerSound;
      ghost var before := Snapshot();
      if write.TakesEffect() {
        ledger := SetEvent(ledger, id, ledger.events[id].(status := Done, signature := Some(signature)));
      }
      at := Batch(at.todo);
      Record(Step.MarkDone(id, write), before);
    }

    method MarkPendingAgain(id: nat, write: Write)
      requires Valid() && at.Unsent? && id == at.id && id < |ledger.events|
      modifies this`ledger, this`at, this`trace
      ensures Valid() && at == Batch(old(at).todo) && |old(trace)| < |trace|
      ensures ledger == if write.Failed? then old(ledger)
                        else var e := old(ledger).events[id];
                             SetEvent(old(ledger), id, e.(status := Pending, retries := e.retries + 1))
    {
      hide Settle, CanSettle, Start, Legal, Run, WorkerSound;
      ghost var before := Snapshot();
      if write.TakesEffect() {
        ledger := SetEvent(ledger, id, ledger.events[id].(status := Pending, retries := ledger.events[id].retries + 1));
      }
      at := Batch(at.todo);
      Record(Step.MarkPendingAgain(id, write), before);
    }

    /** Handles one event of the batch. */
    method ProcessEvent(id: nat, plan: Plan)
      requires Valid() && at.Batch? && at.todo != [] && id == at.todo[0] && id < |ledger.events|
      modifies this`ledger, this`at, this`sent, this`trace
      ensures Valid() && at == Batch(old(at).todo[1..]) && |old(trace)| < |trace|
      ensures ledger == old(ledger).(events := old(ledger).events[id := Handled(old(ledger).events[id], plan)])
      ensures sent == if Pays(plan) then old(sent) + {id} else old(sent)
    {
      hide Valid;
      var ok := MarkProcessing(id, plan.mark);
      if !ok {
        return;
      }
      var signature := ExecuteRewardTx(id, plan.submission);
      if signature.None? {
        MarkPendingAgain(id, plan.close);
        return;
      }
      MarkDone(id, signature.value, plan.close);
    }

    lemma BatchAhead()
      requires Valid() && at.Batch?
      ensures forall i, j :: 0 <= i < j < |at.todo| ==> at.todo[i] != at.todo[j]
      ensures forall i :: 0 <= i < |at.todo| ==> at.todo[i] < |ledger.events|
    {
      assert Ahead(Snapshot(), at.todo);
    }

    /** One round of the worker: every event of the batch is handled once, in order, and no other is touched. */
    method ProcessBatch(ids: seq<nat>, plans: seq<Plan>)
      requires Valid() && at == Batch(ids) && |plans| == |ids|
      modifies this`ledger, this`at, this`sent, this`trace
      ensures Valid() && at.Polling? && |old(trace)| < |trace|
      ensures ledger == old(ledger).(events := ledger.events) && |ledger.events| == |old(ledger).events|
      ensures forall i :: 0 <= i < |ids| ==>
                ids[i] < |ledger.events| && ledger.events[ids[i]] == Handled(old(ledger).events[ids[i]], plans[i])
      ensures forall id :: 0 <= id < |ledger.events| && id !in ids ==> ledger.events[id] == old(ledger).events[id]
      ensures forall id :: id in sent <==> id in old(sent) || exists i :: 0 <= i < |ids| && ids[i] == id && Pays(plans[i])
    {
      hide *;
      BatchAhead();
      for k := 0 to |ids|
        invariant Valid() && at == Batch(ids[k..]) && |old(trace)| + k <= |trace|
        invariant ledger == old(ledger).(events := ledger.events) && |ledger.events| == |old(ledger).events|
        invariant forall i :: 0 <= i < k ==> ledger.events[ids[i]] == Handled(old(ledger).events[ids[i]], plans[i])
        invariant forall id :: 0 <= id < |ledger.events| && id !in ids[..k] ==> ledger.events[id] == old(ledger).events[id]
        invariant forall id :: id in sent <==> id in old(sent) || exists i :: 0 <= i < k && ids[i] == id && Pays(plans[i])
      {
        assert ids[..k + 1] == ids[..k] + [ids[k]];
        ProcessEvent(ids[k], plans[k]);
      }
      assert ids[..|ids|] == ids;
      FinishBatch();
    }

    ghost method FinishBatch()
      requires Valid() && at == Batch([])
      modifies this`at, this`trace
      ensures Valid() && at.Polling? && trace == old(trace) + [EndBatch]
    {
      hide Settle, CanSettle, Start, Legal, Run, WorkerSound;
      ghost var before := Snapshot();
      at := Polling;
      Record(EndBatch, before);
    }
  }
}
