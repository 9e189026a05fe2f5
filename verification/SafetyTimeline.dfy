/**
 Reading the timeline: its lines name no generation, so a reader can only go by their order.
 When the last line on a device is about its newest safe state on record, and what it then
 tells.
 */
module SafetyTimeline {
  import opened Bytes
  import opened SafetyModel
  import opened SafetyInvariant
  import opened SafetyTheorems
  import opened SafetyCoverage
  import opened SafetyExposure

  /** The last line on d. */
  function LastLine(log: seq<Verdict>, d: Device): Option<Verdict>
  {
    if log == [] then None
    else if log[|log| - 1].device == d then Some(log[|log| - 1])
    else LastLine(log[..|log| - 1], d)
  }

  /** No line on d is about a newer safe state than its last line. */
  ghost predicate LastIsNewest(log: seq<Verdict>, d: Device)
  {
    forall v :: v in log && v.device == d ==>
      LastLine(log, d).Some? && v.generation <= LastLine(log, d).value.generation
  }

  /** No safe state of d that began after this one is on record yet. */
  ghost predicate InTurn(st: State, s: SafeId, d: Device)
    requires s in st.safes
  {
    d in st.safes[s].generations ==>
      forall v :: v in st.log && v.device == d ==> v.generation < st.safes[s].generations[d]
  }

  lemma {:induction false} LastLineIs(log: seq<Verdict>, d: Device)
    ensures LastLine(log, d).Some? <==> exists v :: v in log && v.device == d
    ensures LastLine(log, d).Some? ==> LastLine(log, d).value in log && LastLine(log, d).value.device == d
  {
    if log != [] {
      LastSplit(log);
      LastLineIs(log[..|log| - 1], d);
      if log[|log| - 1].device == d { assert log[|log| - 1] in log; }
    }
  }

  lemma {:induction false} LastLineAppend(log: seq<Verdict>, added: seq<Verdict>, d: Device)
    ensures LastLine(log + added, d) == if LastLine(added, d).Some? then LastLine(added, d) else LastLine(log, d)
  {
    if added == [] {
      assert log + added == log;
    } else {
      assert (log + added)[..|log + added| - 1] == log + added[..|added| - 1];
      LastLineAppend(log, added[..|added| - 1], d);
    }
  }

  /** What publishing this safe state puts last on d. */
  lemma PublishedLast(st: State, s: SafeId, d: Device)
    requires Inv(st) && Shaped(st) && s in st.safes
    ensures var safe, added := st.safes[s], Verdicts(st.drivers, st.safes[s]);
            if d in safe.generations then
              && d in safe.progress
              && LastLine(added, d) == Some(Verdict(d, safe.generations[d], Reassured(safe.progress[d])))
            else LastLine(added, d) == None
  {
    hide OutputsOk, LeasesOk, CallsOk, Exclusive, SafesApart, LogOk, LogApart, LeasesOwned, FreshAreLeased, Verdicts;
    var safe, added := st.safes[s], Verdicts(st.drivers, st.safes[s]);
    assert Bounded(safe, st.generation);
    VerdictsListed(st.drivers, safe);
    LastLineIs(added, d);
    if d in safe.generations {
      assert Verdict(d, safe.generations[d], Reassured(safe.progress[d])) in added;
    }
  }

  /** Publishing keeps the last line the newest if and only if the safe state is published in turn. */
  lemma PublishKeepsNewest(st: State, s: SafeId, d: Device)
    requires Inv(st) && Shaped(st) && Enabled(st, SafePublish(s)) && LastIsNewest(st.log, d)
    ensures LastIsNewest(Apply(st, SafePublish(s)).log, d) <==> InTurn(st, s, d)
  {
    hide Verdicts, LastLine, Inv;
    var safe, added := st.safes[s], Verdicts(st.drivers, st.safes[s]);
    VerdictsListed(st.drivers, safe);
    LastLineAppend(st.log, added, d);
    PublishedLast(st, s, d);
    NotYetListed(st, s);
  }

  lemma NotYetListed(st: State, s: SafeId)
    requires Inv(st) && s in st.safes
    ensures Unlisted(st.log, st.safes[s].generations)
  {}

  lemma ReturnLog(st: State, c: CallId)
    requires Shaped(st) && Enabled(st, HandlerReturn(c))
    ensures Apply(st, HandlerReturn(c)).log == st.log
  {
    hide Finished;
    FinishedFrame(st, c);
  }

  lemma EndLog(st: State, step: Step)
    requires Shaped(st) && Enabled(st, step)
    requires step.HandlerRaise? || step.RevertDone? || step.RevertCancelled?
    ensures Apply(st, step).log == st.log
  {
    hide Abandon;
    AbandonFrame(st, st.calls[step.call]);
  }

  lemma CallStepLog(st: State, step: Step)
    requires Shaped(st) && Enabled(st, step) && IsCallStep(step)
    ensures Apply(st, step).log == st.log
  {
    hide Apply, Shaped, Enabled;
    if step.HandlerReturn? {
      ReturnLog(st, step.call);
    } else if step.HandlerRaise? || step.RevertDone? || step.RevertCancelled? {
      EndLog(st, step);
    } else {
      WriteLog(st, step);
    }
  }

  lemma WriteLog(st: State, step: Step)
    requires Shaped(st) && Enabled(st, step) && (step.HandlerWrite? || step.LateWrite?)
    ensures Apply(st, step).log == st.log
  {}

  lemma ReclaimLog(st: State, step: Step)
    requires Shaped(st) && (step.Sweep? || step.Disconnect? || step.Release?)
    ensures Enabled(st, step) && Apply(st, step).log == st.log
  {
    hide Reclaim;
    ReclaimFrame(st, ExpiredAt(st.now));
    if step.Disconnect? { ReclaimFrame(st, Connection(step.connection)); }
    if step.Release? { ReclaimFrame(st, Named(step.lease)); }
  }

  lemma QuietLog(st: State, step: Step)
    requires Shaped(st) && Enabled(st, step)
    requires step.Begin? || step.Renew? || step.Estop? || step.Acknowledge? || step.Tick?
    ensures Apply(st, step).log == st.log
  {
    hide BeginSafe, Taken, Replace, Accepted, Renewable;
    BeginSafeFrame(st.(estop := true, leases := []), st.channels.Keys);
  }

  lemma SafeLog(st: State, step: Step)
    requires Shaped(st) && Enabled(st, step) && (step.SafeWrite? || step.SafeReturn? || step.SafeCancelled?)
    ensures Apply(st, step).log == st.log
  {}

  /** Only publishing writes to the timeline. */
  lemma OthersLeaveLog(st: State, step: Step)
    requires Shaped(st) && Enabled(st, step) && !step.SafePublish?
    ensures Apply(st, step).log == st.log
  {
    hide Apply, Shaped, Enabled;
    if IsCallStep(step) {
      CallStepLog(st, step);
    } else if step.Sweep? || step.Disconnect? || step.Release? {
      ReclaimLog(st, step);
    } else if step.SafeWrite? || step.SafeReturn? || step.SafeCancelled? {
      SafeLog(st, step);
    } else {
      QuietLog(st, step);
    }
  }

  /** The guard of each step for reading d by its last line. */
  ghost predicate Orderly(st: State, step: Step, d: Device)
  {
    step.SafePublish? && step.safe in st.safes ==> InTurn(st, step.safe, d)
  }

  lemma StepKeepsNewest(st: State, step: Step, d: Device)
    requires Inv(st) && Shaped(st) && Enabled(st, step) && LastIsNewest(st.log, d)
    ensures LastIsNewest(Apply(st, step).log, d) <==> Orderly(st, step, d)
  {
    hide Inv, Apply, InTurn, LastIsNewest, Shaped;
    if step.SafePublish? {
      PublishKeepsNewest(st, step.safe, d);
    } else {
      OthersLeaveLog(st, step);
    }
  }

  lemma NothingWritten(st: State, d: Device)
    requires Initial(st)
    ensures LastIsNewest(st.log, d)
  {
    BeginSafeFrame(Found(st.drivers, st.channels, st.on, st.now), st.channels.Keys);
  }

  /** The last line on d is the newest throughout a run exactly as long as safe states of d are published in turn. */
  lemma {:induction false} NewestIffOrderly(states: seq<State>, steps: seq<Step>, n: nat, d: Device)
    requires Run(states, steps) && n < |states|
    ensures (forall i :: 0 <= i <= n ==> LastIsNewest(states[i].log, d))
            <==> (forall i :: 0 <= i < n ==> Orderly(states[i], steps[i], d))
  {
    hide Inv, Shaped, Enabled, Apply, Initial, LastIsNewest, Orderly;
    if n == 0 {
      NothingWritten(states[0], d);
    } else {
      NewestIffOrderly(states, steps, n - 1, d);
      RunInv(states, steps, n - 1);
      assert Leads(states[n - 1], steps[n - 1], states[n]);
      if LastIsNewest(states[n - 1].log, d) { StepKeepsNewest(states[n - 1], steps[n - 1], d); }
    }
  }

  /** In a quiet stop a last line that is the newest can be trusted: if it says safe, the device is off. */
  lemma LastLineTells(st: State, d: Device)
    requires Inv(st) && AllCovered(st) && st.estop && st.calls == map[] && st.safes == map[]
    requires d in st.channels && LastIsNewest(st.log, d)
    requires LastLine(st.log, d).Some? && LastLine(st.log, d).value.safe
    ensures d in st.on && st.on[d] == {}
  {
    hide LastLine, OutputsOk, LeasesOk, CallsOk, Exclusive, SafesBounded, SafesApart, LogApart, LeasesOwned,
         FreshAreLeased;
    QuiescentIsSafeOrReported(st, d);
    LastLineIs(st.log, d);
  }

  /**
   In every run whose steps are benign and whose safe states of d are published in turn: in
   a quiet stop, a last line on d that says safe means that d is off.
   */
  lemma TimelineCanBeRead(states: seq<State>, steps: seq<Step>, n: nat, d: Device)
    requires Run(states, steps) && n < |states| && d in states[n].channels
    requires forall i :: 0 <= i < n ==> Harmless(states[i], steps[i]) && Orderly(states[i], steps[i], d)
    requires var st := states[n]; st.estop && st.calls == map[] && st.safes == map[]
    requires LastLine(states[n].log, d).Some? && LastLine(states[n].log, d).value.safe
    ensures d in states[n].on && states[n].on[d] == {}
  {
    hide Inv, Shaped, Initial, Benign, AllCovered, LastIsNewest, Orderly, Leads, LastLine;
    AccountedIffBenign(states, steps, n);
    NewestIffOrderly(states, steps, n, d);
    RunInv(states, steps, n);
    assert Accounted(states[n]);
    LastLineTells(states[n], d);
  }
}
