/**
 Conditions on devices and drivers alone under which every output that is on is accounted
 for in every state of every run.
 */
module SafetyOrdinary {
  import opened Bytes
  import opened SafetyModel
  import opened SafetyInvariant
  import opened SafetyTheorems
  import opened SafetyCoverage
  import opened SafetyExposure

  /** A driver that returns without an error has cleared every channel that is on. */
  predicate Honest(st: State, s: SafeId, d: Device, outcome: Outcome)
  {
    Safed(outcome) && InFlight(st, s, d) && d in st.on ==> st.on[d] <= st.safes[s].progress[d].cleared
  }

  /**
   No handler raises after switching on, no thread switches on after its call has ended, no
   safe state is cancelled, and drivers are honest.
   */
  predicate Ordinary(st: State, step: Step)
  {
    match step
    case HandlerRaise(c, _) => c in st.calls ==> !Hot(st.calls[c])
    case LateWrite(c) => c in st.late ==> !st.late[c].value
    case RevertCancelled(_) => false
    case SafeCancelled(_) => false
    case SafeReturn(s, d, outcome) => Honest(st, s, d, outcome)
    case _ => true
  }

  ghost predicate SingleOutputs(channels: map<Device, set<Channel>>)
  {
    forall d, x, y :: d in channels && x in channels[d] && y in channels[d] ==> x == y
  }

  /** What it takes: all other steps are ordinary, and of these kinds the ones that meet a condition. */
  lemma {:induction false} OrdinarySuffices(st: State, step: Step)
    requires match step
             case HandlerRaise(c, _) =>
               c in st.calls && (st.calls[c].kind.Energise? ==> st.calls[c].phase == Running(false))
             case LateWrite(c) => c in st.late && st.late[c].value == false
             case SafeReturn(s, d, outcome) =>
               outcome in {Raised, TimedOut, Answered(true)}
               || (d in st.on && InFlight(st, s, d) && st.on[d] <= st.safes[s].progress[d].cleared)
             case _ => !step.RevertCancelled? && !step.SafeCancelled?
    ensures Ordinary(st, step)
  {}

  lemma {:induction false} AtMostOne(channels: map<Device, set<Channel>>)
    ensures SingleOutputs(channels) <==> forall d :: d in channels ==> |channels[d]| <= 1
  {
    forall d | d in channels
      ensures |channels[d]| <= 1 <==> forall x, y :: x in channels[d] && y in channels[d] ==> x == y
    {
      var s := channels[d];
      if s != {} {
        var x :| x in s;
        assert |s| == 1 + |s - {x}|;
        if |s| > 1 { var y :| y in s - {x}; }
        if |s| == 1 { assert s - {x} == {}; assert forall y :: y in s ==> y == x || y in s - {x}; }
      }
    }
  }

  // ---- a switch-off stays off -----------------------------------------------------------------

  /** What a handler has switched off is off until its call ends. */
  ghost predicate OffHolds(calls: map<CallId, Call>, on: map<Device, set<Channel>>)
  {
    forall c :: c in calls && calls[c].kind.Deenergise? && calls[c].phase == Running(true) && calls[c].device in on ==>
                  calls[c].kind.channel !in on[calls[c].device]
  }

  ghost predicate OffKept(st: State, next: State)
  {
    OffHolds(st.calls, st.on) ==> OffHolds(next.calls, next.on)
  }

  /** Calls that are the same or not switching off, and outputs that only go off. */
  lemma OffFrame(st: State, next: State)
    requires forall d :: d in next.on ==> d in st.on && next.on[d] <= st.on[d]
    requires forall c :: c in next.calls && next.calls[c].phase == Running(true) ==>
                           c in st.calls && next.calls[c] == st.calls[c]
    ensures OffKept(st, next)
  {}

  lemma OffWrite(st: State, c: CallId, value: bool)
    requires Inv(st) && Shaped(st) && Enabled(st, HandlerWrite(c, value))
    ensures OffKept(st, Apply(st, HandlerWrite(c, value)))
  {
    hide OutputsOk, LeasesOk, CallsOk, SafesBounded, SafesApart, LogOk, LogApart, LeasesOwned, FreshAreLeased;
    var next := Written(st, c, value);
    if OffHolds(st.calls, st.on) {
      forall e | e in next.calls && e != c
        ensures next.calls[e] == st.calls[e] && st.calls[e].device != st.calls[c].device
      {
        AloneOnDevice(st, c, e);
      }
    }
  }

  lemma OffReclaim(st: State, q: Query)
    ensures OffKept(st, Reclaim(st, q))
  {
    hide OffKept, Reclaim;
    ReclaimFrame(st, q);
    OffFrame(st, Reclaim(st, q));
  }

  lemma OffReturn(st: State, c: CallId)
    requires Shaped(st) && Enabled(st, HandlerReturn(c))
    ensures OffKept(st, Apply(st, HandlerReturn(c)))
  {
    hide OffKept, Finished;
    FinishedFrame(st, c);
    OffFrame(st, Finished(st, c));
  }

  lemma OffEnd(st: State, step: Step)
    requires Shaped(st) && Enabled(st, step)
    requires step.HandlerRaise? || step.RevertDone? || step.RevertCancelled?
    ensures OffKept(st, Apply(st, step))
  {
    hide OffKept, Abandon;
    AbandonFrame(st, st.calls[step.call]);
    OffFrame(st, Apply(st, step));
  }

  lemma OffBegin(st: State, r: Request)
    requires Shaped(st) && Enabled(st, Begin(r))
    ensures OffKept(st, Apply(st, Begin(r)))
  {
    hide OffKept, Accepted;
    OffFrame(st, Apply(st, Begin(r)));
  }

  lemma OffRenew(st: State, id: LeaseId, connection: nat, ttl: Option<int>)
    ensures OffKept(st, Renewed(st, id, connection, ttl))
  {
    hide OffKept, Renewed;
    RenewedFrame(st, id, connection, ttl);
    OffFrame(st, Renewed(st, id, connection, ttl));
  }

  lemma OffQuiet(st: State, step: Step)
    requires Shaped(st) && (step.Acknowledge? || step.Tick? || step.Estop?)
    ensures Enabled(st, step) && OffKept(st, Apply(st, step))
  {
    hide OffKept, BeginSafe;
    BeginSafeFrame(st.(estop := true, leases := []), st.channels.Keys);
    OffFrame(st, Apply(st, step));
  }

  lemma OffLate(st: State, c: CallId)
    requires Shaped(st) && Enabled(st, LateWrite(c)) && Ordinary(st, LateWrite(c))
    ensures OffKept(st, Apply(st, LateWrite(c)))
  {
    hide OffKept;
    OffFrame(st, Apply(st, LateWrite(c)));
  }

  lemma OffSafe(st: State, step: Step)
    requires Shaped(st) && Enabled(st, step)
    requires step.SafeWrite? || step.SafeReturn? || step.SafePublish?
    ensures OffKept(st, Apply(st, step))
  {
    hide OffKept, Verdicts;
    OffFrame(st, Apply(st, step));
  }

  lemma OffCallStep(st: State, step: Step)
    requires Inv(st) && Shaped(st) && Enabled(st, step) && Ordinary(st, step) && IsCallStep(step)
    ensures OffKept(st, Apply(st, step))
  {
    hide Inv, Shaped, OffKept, Apply, Enabled;
    match step {
      case HandlerWrite(c, value) => OffWrite(st, c, value);
      case HandlerReturn(c) => OffReturn(st, c);
      case HandlerRaise(_, _) => OffEnd(st, step);
      case RevertDone(_) => OffEnd(st, step);
      case LateWrite(c) => OffLate(st, c);
    }
  }

  lemma OffStep(st: State, step: Step)
    requires Inv(st) && Shaped(st) && Enabled(st, step) && Ordinary(st, step)
    ensures OffKept(st, Apply(st, step))
  {
    hide Inv, Shaped, OffKept, Reclaim, Enabled;
    if IsCallStep(step) {
      OffCallStep(st, step);
    } else if step.Sweep? {
      OffReclaim(st, ExpiredAt(st.now));
    } else if step.Disconnect? {
      OffReclaim(st, Connection(step.connection));
    } else if step.Release? {
      OffReclaim(st, Named(step.lease));
    } else if step.SafeWrite? || step.SafeReturn? || step.SafePublish? {
      OffSafe(st, step);
    } else if step.Begin? {
      OffBegin(st, step.request);
    } else if step.Renew? {
      OffRenew(st, step.lease, step.connection, step.ttl);
    } else {
      OffQuiet(st, step);
    }
  }

  // ---- ordinary steps are benign ----------------------------------------------------------------

  /** An honest driver that vouches for its device leaves nothing to be guarded. */
  lemma HonestIsSpare(st: State, s: SafeId, d: Device, outcome: Outcome)
    requires Inv(st) && InFlight(st, s, d) && d in st.on && d in st.generation && Covered(st, d)
    requires Safed(outcome) && Honest(st, s, d, outcome)
    ensures Spare(st, s, d)
  {
    hide OutputsOk, LeasesOk, CallsOk, SafesBounded, LogOk, Exclusive, LeasesOwned, FreshAreLeased, Held, HotOn;
    var g := st.generation[d];
    if Newest(st.safes[s], g, d) && st.on[d] != {} {
      var ch :| ch in st.on[d];
      assert Unlisted(st.log, st.safes[s].generations) && !Reported(st.log, g, d);
      forall t | t in st.safes && t != s ensures !Newest(st.safes[t], g, d) {
        assert Apart(st.safes[s].generations, st.safes[t].generations);
      }
      assert !Watched(st.safes, g, d, ch);
    }
  }

  /** With one output a device is all off once a switch-off has returned. */
  lemma SingleIsOff(st: State, c: CallId)
    requires Inv(st) && Shaped(st) && Enabled(st, HandlerReturn(c)) && st.calls[c].kind.Deenergise?
    requires SingleOutputs(st.channels) && OffHolds(st.calls, st.on)
    ensures st.calls[c].device in st.on && st.on[st.calls[c].device] == {}
  {
    hide LeasesOk, Exclusive, SafesBounded, SafesApart, LogOk, LogApart, LeasesOwned, FreshAreLeased;
    var call := st.calls[c];
    CallIsOk(st, c);
    OutputsInChannels(st, call.device);
    assert forall x :: x in st.on[call.device] ==> x == call.kind.channel;
  }

  lemma OrdinaryIsBenign(st: State, step: Step)
    requires Inv(st) && Shaped(st) && AllCovered(st) && Enabled(st, step)
    requires SingleOutputs(st.channels) && OffHolds(st.calls, st.on) && Ordinary(st, step)
    ensures Benign(st, step)
  {
    hide Inv, Guarded, LeaseBeside, LeaseBeyond, NotNeeded, Spare, Covered, SingleOutputs, OffHolds;
    NextSafeIsNew(st);
    if step.HandlerReturn? {
      if st.calls[step.call].kind.Deenergise? { SingleIsOff(st, step.call); }
    } else if step.SafeReturn? && Safed(step.outcome) {
      HonestIsSpare(st, step.safe, step.device, step.outcome);
    }
  }

  // ---- whole runs -------------------------------------------------------------------------------

  lemma {:induction false} ChannelsFixed(states: seq<State>, steps: seq<Step>, i: nat)
    requires Run(states, steps) && i < |states|
    ensures states[i].channels == states[0].channels
  {
    hide Inv, Shaped, Enabled, Apply, Initial;
    if i > 0 {
      ChannelsFixed(states, steps, i - 1);
      RunInv(states, steps, i - 1);
      assert Leads(states[i - 1], steps[i - 1], states[i]);
      StepAges(states[i - 1], steps[i - 1]);
    }
  }

  lemma InitialOff(st: State)
    requires Initial(st)
    ensures OffHolds(st.calls, st.on)
  {
    BeginSafeFrame(Found(st.drivers, st.channels, st.on, st.now), st.channels.Keys);
  }

  lemma {:induction false} OrdinaryRun(states: seq<State>, steps: seq<Step>, i: nat)
    requires Run(states, steps) && i < |states| && SingleOutputs(states[0].channels)
    requires forall k :: 0 <= k < |steps| ==> Ordinary(states[k], steps[k])
    ensures Accounted(states[i]) && OffHolds(states[i].calls, states[i].on)
  {
    hide Inv, Shaped, Enabled, Apply, Initial, Benign, AllCovered, Ordinary, SingleOutputs, OffHolds;
    if i == 0 {
      InitialCovered(states[0]);
      InitialOff(states[0]);
    } else {
      var st, step := states[i - 1], steps[i - 1];
      OrdinaryRun(states, steps, i - 1);
      RunInv(states, steps, i - 1);
      ChannelsFixed(states, steps, i - 1);
      assert Leads(st, step, states[i]);
      OrdinaryIsBenign(st, step);
      StepCovers(st, step);
      OffStep(st, step);
    }
  }

  /**
   With one output a device, under the ordinary conditions every output that is on is
   accounted for in every state of every run; so once ESTOP is latched and nothing is in
   flight, each device is off or on record as not safed.
   */
  lemma EveryOutputAccountedFor(states: seq<State>, steps: seq<Step>, i: nat, d: Device)
    requires Run(states, steps) && i < |states| && d in states[0].channels
    requires SingleOutputs(states[0].channels)
    requires forall k :: 0 <= k < |steps| ==> Ordinary(states[k], steps[k])
    ensures var st := states[i];
            && d in st.on && d in st.generation && Covered(st, d)
            && (st.estop && st.calls == map[] && st.safes == map[] ==>
                  st.on[d] == {} || Verdict(d, st.generation[d], false) in st.log)
  {
    hide Inv, Shaped, Enabled, Apply, Initial, Benign, Covered, Ordinary, SingleOutputs;
    OrdinaryRun(states, steps, i);
    RunInv(states, steps, i);
    ChannelsFixed(states, steps, i);
    var st := states[i];
    assert Accounted(st);
    if st.estop && st.calls == map[] && st.safes == map[] { QuiescentIsSafeOrReported(st, d); }
  }
}
