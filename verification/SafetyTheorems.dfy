/**
 What the safe-state protocol promises over whole runs: when a call may return ok, and
 when an output that is on is accounted for.
 */
module SafetyTheorems {
  import opened Bytes
  import opened SafetyModel
  import opened SafetyInvariant

  /** A run from start-up: every step is enabled and leads to the next state. */
  ghost predicate Run(states: seq<State>, steps: seq<Step>)
  {
    && |states| == |steps| + 1
    && Initial(states[0])
    && forall i :: 0 <= i < |steps| ==> Leads(states[i], steps[i], states[i + 1])
  }

  ghost predicate Leads(st: State, step: Step, next: State)
  {
    Shaped(st) && Enabled(st, step) && next == Apply(st, step)
  }

  /** In every interleaving every state satisfies the invariant. */
  lemma {:induction false} RunInv(states: seq<State>, steps: seq<Step>, i: nat)
    requires Run(states, steps) && i < |states|
    ensures Inv(states[i]) && Shaped(states[i])
  {
    hide Inv, Shaped, Enabled, Apply, Initial;
    if i == 0 {
      InitialInv(states[0]);
    } else {
      RunInv(states, steps, i - 1);
      assert Leads(states[i - 1], steps[i - 1], states[i]);
      StepKeeps(states[i - 1], steps[i - 1]);
    }
    InvIsShaped(states[i]);
  }

  // ---- a call returns ok only if no safe state overtook it ------------------------------

  ghost predicate SameCall(a: Call, b: Call)
  {
    a.device == b.device && a.kind == b.kind && a.lease == b.lease && a.generation == b.generation
  }

  /** Generations and call numbers only grow, and a call keeps what it sampled. */
  ghost predicate Ages(st: State, next: State)
  {
    && next.channels == st.channels && next.generation.Keys == st.generation.Keys
    && (forall d :: d in st.generation ==> st.generation[d] <= next.generation[d])
    && st.nextCall <= next.nextCall
    && (forall c :: c in next.calls ==>
          c >= st.nextCall || (c in st.calls && SameCall(st.calls[c], next.calls[c])))
  }

  /** The generation of d moves exactly when a new safe state over d goes into flight. */
  ghost predicate Marks(st: State, next: State)
  {
    forall d :: d in st.generation ==>
      d in next.generation &&
      (next.generation[d] != st.generation[d]
       <==> st.nextSafe in next.safes && d in next.safes[st.nextSafe].generations)
  }

  ghost predicate Moves(st: State, next: State)
  {
    Ages(st, next) && Marks(st, next)
  }

  lemma BeginSafeAges(st: State, devices: set<Device>)
    requires Keyed(st) && st.nextSafe !in st.safes
    ensures Moves(st, BeginSafe(st, devices))
    ensures BeginSafe(st, devices).calls == st.calls
  {
    Bumped(st, devices);
  }

  /** What a step needs to be looked at on its own. */
  ghost predicate Ready(st: State, step: Step)
  {
    Keyed(st) && st.nextSafe !in st.safes && Shaped(st) && Enabled(st, step)
  }

  lemma FinishedAges(st: State, c: CallId)
    requires Keyed(st) && st.nextSafe !in st.safes && RunningCall(st, c)
    requires st.calls[c].device in st.generation
    ensures Moves(st, Finished(st, c))
  {
    hide BeginSafe, Left, Moves;
    if Superseded(st, c) {
      var mid := Abandon(st, st.calls[c]);
      var safed := BeginSafe(mid, {st.calls[c].device});
      BeginSafeAges(mid, {st.calls[c].device});
      MovesOnly(mid, safed, st, Finished(st, c));
    } else {
      PlainAges(st, Finished(st, c));
    }
  }

  /** Only generations, safe states and calls matter to `Moves`. */
  lemma MovesOnly(a: State, b: State, st: State, next: State)
    requires Moves(a, b) && a.generation == st.generation && a.nextSafe == st.nextSafe
    requires a.channels == st.channels && a.nextCall == st.nextCall
    requires b.generation == next.generation && b.safes == next.safes
    requires b.channels == next.channels && b.nextCall == next.nextCall
    requires forall c :: c in next.calls ==>
               c >= st.nextCall || (c in st.calls && SameCall(st.calls[c], next.calls[c]))
    ensures Moves(st, next)
  {}

  lemma ReclaimAges(st: State, q: Query)
    requires Keyed(st) && st.nextSafe !in st.safes
    ensures Moves(st, Reclaim(st, q))
  {
    hide BeginSafe, Left, Taken;
    BeginSafeAges(st.(leases := Left(st.leases, q)), DevicesOf(Taken(st.leases, q)));
  }

  /** A step that starts no safe state and no call only has to leave the calls alone. */
  lemma PlainAges(st: State, next: State)
    requires st.nextSafe !in st.safes && next.safes.Keys <= st.safes.Keys
    requires next.channels == st.channels && next.generation == st.generation
    requires next.nextCall >= st.nextCall
    requires forall c :: c in next.calls ==>
               c >= st.nextCall || (c in st.calls && SameCall(st.calls[c], next.calls[c]))
    ensures Moves(st, next)
  {}

  lemma BegunAges(st: State, r: Request)
    requires Ready(st, Begin(r))
    ensures Moves(st, Apply(st, Begin(r)))
  {
    hide Accepted, Moves;
    PlainAges(st, Begun(st, r));
  }

  lemma WrittenAges(st: State, c: CallId, value: bool)
    requires Ready(st, HandlerWrite(c, value))
    ensures Moves(st, Apply(st, HandlerWrite(c, value)))
  {
    hide Moves;
    PlainAges(st, Written(st, c, value));
  }

  lemma FailAges(st: State, c: CallId)
    requires c in st.calls && st.nextSafe !in st.safes
    ensures Moves(st, Failed(st, c))
    ensures st.calls[c].phase.Reverting? ==> Moves(st, RevertAborted(st, c))
  {
    hide Moves, Left;
    PlainAges(st, Failed(st, c));
    if st.calls[c].phase.Reverting? { PlainAges(st, RevertAborted(st, c)); }
  }

  lemma ReturnedAges(st: State, c: CallId)
    requires Ready(st, HandlerReturn(c))
    ensures Moves(st, Apply(st, HandlerReturn(c)))
  {
    hide Moves, Finished;
    FinishedAges(st, c);
  }

  lemma RaisedAges(st: State, c: CallId, late: Option<bool>)
    requires Ready(st, HandlerRaise(c, late))
    ensures Moves(st, Apply(st, HandlerRaise(c, late)))
  {
    hide Failed;
    FailAges(st, c);
    MovesOnly(st, Failed(st, c), st, Apply(st, HandlerRaise(c, late)));
  }

  lemma EndedAges(st: State, step: Step)
    requires Ready(st, step) && (step.RevertDone? || step.RevertCancelled?)
    ensures Moves(st, Apply(st, step))
  {
    hide Moves, Failed, RevertAborted;
    FailAges(st, step.call);
  }

  lemma LateAges(st: State, c: CallId)
    requires Ready(st, LateWrite(c))
    ensures Moves(st, Apply(st, LateWrite(c)))
  {
    hide Moves;
    PlainAges(st, LateWritten(st, c));
  }

  lemma ReclaimedAges(st: State, step: Step)
    requires Ready(st, step) && (step.Sweep? || step.Disconnect? || step.Release?)
    ensures Moves(st, Apply(st, step))
  {
    hide Moves, Reclaim;
    ReclaimAges(st, if step.Sweep? then ExpiredAt(st.now)
                    else if step.Disconnect? then Connection(step.connection) else Named(step.lease));
  }

  lemma DriverStepsAge(st: State, step: Step)
    requires Ready(st, step) && (step.SafeWrite? || step.SafeReturn?)
    ensures Moves(st, Apply(st, step))
  {
    hide Moves;
    PlainAges(st, Apply(st, step));
  }

  lemma SafeStepsAge(st: State, step: Step)
    requires Ready(st, step) && (step.SafePublish? || step.SafeCancelled?)
    ensures Moves(st, Apply(st, step))
  {
    hide Moves, Verdicts;
    PlainAges(st, Apply(st, step));
  }

  lemma RenewAges(st: State, id: LeaseId, connection: nat, ttl: Option<int>)
    requires Ready(st, Renew(id, connection, ttl))
    ensures Moves(st, Apply(st, Renew(id, connection, ttl)))
  {
    hide Moves, Renewed;
    RenewedFrame(st, id, connection, ttl);
    PlainAges(st, Renewed(st, id, connection, ttl));
  }

  lemma QuietStepsAge(st: State, step: Step)
    requires Ready(st, step) && (step.Acknowledge? || step.Tick?)
    ensures Moves(st, Apply(st, step))
  {
    hide Moves;
    PlainAges(st, Apply(st, step));
  }

  lemma EstopAges(st: State)
    requires Ready(st, Estop)
    ensures Moves(st, Apply(st, Estop))
  {
    hide BeginSafe;
    BeginSafeAges(st.(estop := true, leases := []), st.channels.Keys);
  }

  lemma NextSafeIsNew(st: State)
    requires Inv(st)
    ensures st.nextSafe !in st.safes && Keyed(st)
  {}

  lemma StepAges(st: State, step: Step)
    requires Inv(st) && Shaped(st) && Enabled(st, step)
    ensures Moves(st, Apply(st, step))
  {
    NextSafeIsNew(st);
    assert Ready(st, step);
    hide Inv, Apply, Moves, Enabled, Shaped, Ready;
    match step {
      case Begin(r) => BegunAges(st, r);
      case HandlerWrite(c, value) => WrittenAges(st, c, value);
      case HandlerReturn(c) => ReturnedAges(st, c);
      case HandlerRaise(c, late) => RaisedAges(st, c, late);
      case LateWrite(c) => LateAges(st, c);
      case RevertDone(_) => EndedAges(st, step);
      case RevertCancelled(_) => EndedAges(st, step);
      case Sweep => ReclaimedAges(st, step);
      case Disconnect(_) => ReclaimedAges(st, step);
      case Release(_) => ReclaimedAges(st, step);
      case Estop => EstopAges(st);
      case SafeWrite(_, _, _) => DriverStepsAge(st, step);
      case SafeReturn(_, _, _) => DriverStepsAge(st, step);
      case SafePublish(_) => SafeStepsAge(st, step);
      case SafeCancelled(_) => SafeStepsAge(st, step);
      case Renew(id, n, ttl) => RenewAges(st, id, n, ttl);
      case Acknowledge => QuietStepsAge(st, step);
      case Tick(_) => QuietStepsAge(st, step);
    }
  }

  /** Between two points of a run where a call is known, it is known throughout and unchanged. */
  lemma {:induction false} CallPersists(states: seq<State>, steps: seq<Step>, c: CallId, i: nat, j: nat)
    requires Run(states, steps) && i <= j < |states|
    requires c < states[i].nextCall && c in states[j].calls
    ensures c in states[i].calls && SameCall(states[i].calls[c], states[j].calls[c])
    ensures states[j].generation.Keys == states[i].generation.Keys
    ensures forall d :: d in states[i].generation ==> states[i].generation[d] <= states[j].generation[d]
    decreases j - i
  {
    hide Inv, Shaped, Enabled, Apply, Initial;
    if i < j {
      RunInv(states, steps, i);
      assert Leads(states[i], steps[i], states[i + 1]);
      StepAges(states[i], steps[i]);
      CallPersists(states, steps, c, i + 1, j);
    }
  }

  /**
   A call that began at step i and returns ok at step j saw no safe state of its device
   begin in between; and an energising call still has its lease in the table, with ESTOP
   not latched.
   */
  lemma OkMeansUndisturbed(states: seq<State>, steps: seq<Step>, i: nat, j: nat, r: Request)
    requires Run(states, steps) && i < j < |steps|
    requires steps[i] == Begin(r) && Accepted(states[i], r)
    requires steps[j] == HandlerReturn(states[i].nextCall)
    requires Shaped(states[j]) && ReturnsOk(states[j], steps[j])
    ensures r.device in states[i].generation
    ensures forall k :: i <= k <= j ==>
              r.device in states[k].generation
              && states[k].generation[r.device] == states[i].generation[r.device]
    ensures r.kind.Energise? ==>
              states[i].nextLease in (set l | l in states[j].leases :: l.id) && !states[j].estop
  {
    hide Inv, Initial, CallOk, CallsOk, Exclusive, SafesBounded, SafesApart, LogOk, LogApart, LeasesOk,
         LeasesOwned, OutputsOk;
    var c, d := states[i].nextCall, r.device;
    RunInv(states, steps, i);
    RunInv(states, steps, j);
    assert Leads(states[i], steps[i], states[i + 1]);
    CallPersists(states, steps, c, i + 1, j);
    forall k | i <= k <= j
      ensures d in states[k].generation && states[k].generation[d] == states[i].generation[d]
    {
      if k > i {
        RunInv(states, steps, k);
        BeganBefore(states, steps, c, i + 1, k);
        CallPersists(states, steps, c, k, j);
        BetweenGenerations(states, steps, c, i + 1, k, j);
      }
    }
    if r.kind.Energise? { FreshHolds(states[j], c); }
  }

  lemma FreshHolds(st: State, c: CallId)
    requires Inv(st) && c in st.calls && Fresh(st.calls[c], st.generation)
    ensures exists l :: l in st.leases && st.calls[c].lease == Some(l.id)
    ensures !st.estop
  {
    assert Leased(st.calls[c], st.leases);
  }

  lemma {:induction false} BeganBefore(states: seq<State>, steps: seq<Step>, c: CallId, i: nat, k: nat)
    requires Run(states, steps) && i <= k < |states| && c < states[i].nextCall
    ensures c < states[k].nextCall
    decreases k - i
  {
    hide Inv, Shaped, Enabled, Apply, Initial;
    if i < k {
      RunInv(states, steps, i);
      assert Leads(states[i], steps[i], states[i + 1]);
      StepAges(states[i], steps[i]);
      BeganBefore(states, steps, c, i + 1, k);
    }
  }

  lemma BetweenGenerations(states: seq<State>, steps: seq<Step>, c: CallId, i: nat, k: nat, j: nat)
    requires Run(states, steps) && i <= k <= j < |states|
    requires c < states[i].nextCall && c < states[k].nextCall && c in states[j].calls
    ensures c in states[k].calls
    ensures states[k].generation.Keys == states[i].generation.Keys == states[j].generation.Keys
    ensures forall d :: d in states[i].generation ==>
              states[i].generation[d] <= states[k].generation[d] <= states[j].generation[d]
  {
    hide Initial, Leads;
    CallPersists(states, steps, c, k, j);
    CallPersists(states, steps, c, i, k);
  }

  /** A generation moves exactly when a new safe state on that device goes into flight. */
  lemma {:induction false} GenerationMarksSafeState(st: State, step: Step, d: Device)
    requires Inv(st) && Shaped(st) && Enabled(st, step) && d in st.generation
    ensures var next := Apply(st, step);
            d in next.generation &&
            (next.generation[d] != st.generation[d]
             <==> st.nextSafe in next.safes && d in next.safes[st.nextSafe].generations)
  {
    hide Inv, Apply, Enabled;
    StepAges(st, step);
  }
}
