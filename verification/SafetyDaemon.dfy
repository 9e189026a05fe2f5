/**
 The daemon's side of the protocol as it changes its objects: each method is one
 await-free stretch of fielddeck/daemon/dispatcher.py or service.py and takes the whole
 state exactly one step of the model.
 */
module SafetyDaemon {
  import opened Bytes
  import opened SafetyModel
  import opened SafetyInvariant
  import opened SafetyLeases

  class Daemon {
    const drivers: seq<Device>
    const channels: map<Device, set<Channel>>
    const table: LeaseManager
    const latch: EstopController
    var now: int
    var nextLease: LeaseId
    var generation: map<Device, nat>
    var on: map<Device, set<Channel>>
    var calls: map<CallId, Call>
    var nextCall: CallId
    var safes: map<SafeId, SafeState>
    var nextSafe: SafeId
    var log: seq<Verdict>
    /** Worker threads of calls that have ended. */
    var late: map<CallId, Straggler>
    /** The devices whose driver lock is held. */
    var locked: set<Device>

    ghost function View(): State
      reads this, table, latch
    {
      State(drivers, channels, latch.status.active, now, table.leases, nextLease, generation, on,
            calls, nextCall, safes, nextSafe, log, late)
    }

    ghost predicate Valid()
      reads this, table, latch
    {
      && Inv(View()) && Shaped(View()) && table.Valid()
      && Unrepeated(drivers)
      && Locks(locked, calls)
    }

    /** `start`: nothing is known of any device, and every one of them is driven safe. */
    constructor (drivers: seq<Device>, channels: map<Device, set<Channel>>, on: map<Device, set<Channel>>)
      requires Unrepeated(drivers) && (forall d :: d in drivers <==> d in channels) && on.Keys == channels.Keys
      requires forall d :: d in channels ==> on[d] <= channels[d]
      ensures Valid() && Initial(View()) && this.drivers == drivers && this.channels == channels && this.on == on
      ensures fresh(table) && fresh(latch)
    {
      this.drivers, this.channels, this.on := drivers, channels, on;
      table := new LeaseManager();
      latch := new EstopController();
      generation := map d | d in channels :: 0;
      calls, safes, late, locked, log := map[], map[], map[], {}, [];
      now, nextLease, nextCall, nextSafe := 0, 0, 0, 0;
      new;
      hide Inv, Shaped, BeginSafe, Unrepeated;
      assert View() == Found(drivers, channels, on, 0);
      BeginSafeFrame(View(), channels.Keys);
      ApplySafeState(channels.Keys);
      InitialInv(View());
      InvIsShaped(View());
    }

    // ---- stretches shared by several actors ---------------------------------------------

    /** The registered drivers among `devices`, in registry order. */
    method SelectDrivers(devices: set<Device>) returns (selected: seq<Device>)
      ensures selected == Selected(drivers, devices)
    {
      selected := [];
      for i := 0 to |drivers|
        invariant selected == Selected(drivers[..i], devices)
      {
        assert drivers[..i + 1] == drivers[..i] + [drivers[i]];
        SelectedSnoc(drivers[..i], drivers[i], devices);
        if drivers[i] in devices {
          selected := selected + [drivers[i]];
        }
      }
      assert drivers[..|drivers|] == drivers;
    }

    method BumpGenerations(selected: seq<Device>)
      requires Unrepeated(selected) && forall d :: d in selected ==> d in generation
      modifies `generation
      ensures Bumps(old(generation), generation, selected)
    {
      for i := 0 to |selected|
        invariant Bumps(old(generation), generation, selected[..i])
      {
        var d := selected[i];
        assert d in selected && d !in selected[..i];
        assert selected[..i + 1] == selected[..i] + [d];
        generation := generation[d := generation[d] + 1];
      }
      assert selected[..|selected|] == selected;
    }

    /** `apply_safe_state` up to its first await. */
    method ApplySafeState(devices: set<Device>)
      requires Keyed(View()) && Unrepeated(drivers)
      modifies `generation, `safes, `nextSafe
      ensures View() == BeginSafe(old(View()), devices)
    {
      hide Selected, Unrepeated, BeginSafe, Bumps, Keyed, Unfinished;
      var selected := SelectDrivers(devices);
      SelectedMeans(View(), devices, selected);
      if selected == [] {
        return;
      }
      BumpGenerations(selected);
      BumpedKeys(old(generation), generation, selected);
      safes := safes[nextSafe := Unfinished(selected, generation)];
      nextSafe := nextSafe + 1;
      SafeBegun(old(View()), devices, selected, generation, safes[nextSafe - 1]);
    }

    /** `_abandon_lease` */
    method AbandonLease(call: Call)
      requires table.Valid()
      modifies table
      ensures table.Valid() && View() == Abandon(old(View()), call)
    {
      if call.lease.Some? {
        var _ := table.Release(call.lease.value);
      }
    }

    // ---- a call -------------------------------------------------------------------------

    /** The dead-man handle of an energising call; the safe direction takes none. */
    method TakeLease(r: Request) returns (lease: Result<Option<LeaseId>, LeaseError>)
      requires table.Valid() && NoneMatch(table.leases, Named(nextLease))
      modifies `nextLease, table
      ensures table.Valid()
      ensures lease.Ok? <==> (r.kind.Energise? ==> r.ttl > 0)
      ensures var leased := lease.Ok? && r.kind.Energise?;
              && (lease.Ok? ==> lease.value == if leased then Some(old(nextLease)) else None)
              && nextLease == old(nextLease) + (if leased then 1 else 0)
              && table.leases == old(table.leases) +
                   (if leased then [Granted(r, old(nextLease), now)] else [])
    {
      if !r.kind.Energise? {
        return Ok(None);
      }
      var got := table.Acquire(nextLease, r.device, r.action, r.connection, r.ttl, now);
      if got.Err? {
        return Err(got.error);
      }
      nextLease := nextLease + 1;
      lease := Ok(Some(got.value.id));
    }

    /** `SafetyManager.authorize`: grants and limits are in `granted`; the latch is waived only for switching off. */
    predicate Authorized(r: Request)
      reads this, latch
    {
      && (r.kind.Deenergise? || r.granted)
      && (latch.status.active ==> r.kind.Deenergise? && r.allowedDuringEstop)
    }

    /** The lock is taken, the generation sampled and the handler's task created. */
    method StartHandler(r: Request, lease: Option<LeaseId>)
      requires r.device in generation
      modifies `locked, `calls, `nextCall
      ensures locked == old(locked) + {r.device}
      ensures View() == old(View()).(
                calls := old(calls)[old(nextCall) := Started(r, lease, generation[r.device])],
                nextCall := old(nextCall) + 1)
    {
      locked := locked + {r.device};
      calls := calls[nextCall := Started(r, lease, generation[r.device])];
      nextCall := nextCall + 1;
    }

    /** `_execute` up to the handler: authorization, limits, the device lock, the lease. */
    method Execute(r: Request) returns (c: Option<CallId>)
      requires Valid() && Enabled(View(), Begin(r))
      modifies this, table
      ensures Valid() && View() == Apply(old(View()), Begin(r))
      ensures c == if Accepted(old(View()), r) then Some(old(nextCall)) else None
    {
      hide Inv, Shaped, Apply, Enabled, Locks, Accepted, Begun;
      BeginFacts(View(), r, locked);
      ghost var before := View();
      if !Authorized(r) || r.device in locked {
        return None;
      }
      var lease := TakeLease(r);
      if lease.Err? {
        assert View() == before;
        return None;
      }
      c := Some(nextCall);
      StartHandler(r, lease.value);
      BegunIs(before, r, View());
    }

    /** The device lock is released and the call leaves `_running`. */
    method DropCall(c: CallId)
      requires c in calls
      modifies `locked, `calls
      ensures locked == old(locked) - {old(calls)[c].device}
      ensures View() == SafetyModel.DropCall(old(View()), c)
    {
      locked := locked - {calls[c].device};
      calls := calls - {c};
    }

    /** The handler is back: `_reject_if_superseded`, then `_release_leases`. */
    method HandlerReturned(c: CallId) returns (ok: bool)
      requires Valid() && Enabled(View(), HandlerReturn(c))
      modifies this, table
      ensures Valid() && View() == Apply(old(View()), HandlerReturn(c))
      ensures ok <==> ReturnsOk(old(View()), HandlerReturn(c))
    {
      hide Inv, Shaped, Apply, Enabled, Locks, Unrepeated, BeginSafe, Abandon;
      EndFacts(View(), HandlerReturn(c), c, locked);
      ghost var before := View();
      var call := calls[c];
      ok := generation[call.device] == call.generation;
      if !ok {
        var revert := nextSafe;
        AbandonLease(call);
        AbandonFrame(before, call);
        ApplySafeState({call.device});
        calls := calls[c := call.(phase := Reverting(revert))];
        BeginSafeFrame(Abandon(before, call), {call.device});
        LocksRelabelled(locked, before.calls, c, calls[c]);
        return;
      }
      if call.kind.Deenergise? {
        var _ := table.ReleaseOutput(call.device, call.action, now);
      }
      DropCall(c);
    }

    /** `_abandon_lease`, and the error goes out. */
    method CallFailed(c: CallId)
      requires table.Valid() && c in calls
      modifies `locked, `calls, table
      ensures table.Valid() && View() == Failed(old(View()), c)
      ensures locked == old(locked) - {old(calls)[c].device} && calls == old(calls) - {c}
    {
      hide Abandon;
      AbandonFrame(View(), calls[c]);
      AbandonLease(calls[c]);
      DropCall(c);
    }

    /** The handler raised or ran out of time; `thread` is a write its worker thread still has to make. */
    method HandlerRaised(c: CallId, thread: Option<bool>)
      requires Valid() && Enabled(View(), HandlerRaise(c, thread))
      modifies this, table
      ensures Valid() && View() == Apply(old(View()), HandlerRaise(c, thread))
    {
      hide Inv, Shaped, Apply, Enabled, Locks, Unrepeated, Failed;
      EndFacts(View(), HandlerRaise(c, thread), c, locked);
      FailedFrame(View(), c);
      ghost var before := View();
      var call := calls[c];
      CallFailed(c);
      if thread.Some? {
        late := late[c := Straggler(call.device, call.kind.channel, thread.value)];
      }
      assert View() == LeftBehind(Failed(before, c), c, call, thread);
    }

    /** The safe state that an overtaken call waited for is over. */
    method RevertOver(c: CallId)
      requires Valid() && Enabled(View(), RevertDone(c))
      modifies this, table
      ensures Valid() && View() == Apply(old(View()), RevertDone(c))
    {
      hide Inv, Shaped, Apply, Enabled, Locks, Unrepeated, Failed;
      EndFacts(View(), RevertDone(c), c, locked);
      CallFailed(c);
    }

    /** `safe_one`: a driver's `safe_state` is over, one way or the other. */
    method DriverReturned(s: SafeId, d: Device, outcome: Outcome)
      requires Valid() && Enabled(View(), SafeReturn(s, d, outcome))
      modifies `safes
      ensures Valid() && View() == Apply(old(View()), SafeReturn(s, d, outcome))
    {
      hide Inv, Locks, Unrepeated;
      StepKeeps(View(), SafeReturn(s, d, outcome));
      var safe := safes[s];
      safes := safes[s := safe.(progress := safe.progress[d := Returned(outcome)])];
    }

    // ---- the actors that take leases away -------------------------------------------------

    /** The lease half of `_safety_loop`. */
    method SafetySweep()
      requires Valid()
      modifies this, table
      ensures Valid() && View() == Apply(old(View()), Sweep)
    {
      hide Inv, Shaped, Apply, Locks, Unrepeated, BeginSafe, Taken, Left;
      ReclaimFacts(View(), Sweep, ExpiredAt(now));
      var expired := table.Sweep(now);
      if expired != [] {
        ApplySafeState(DevicesOf(expired));
      }
    }

    /** `_on_disconnect` */
    method OnDisconnect(connection: nat)
      requires Valid()
      modifies this, table
      ensures Valid() && View() == Apply(old(View()), Disconnect(connection))
    {
      hide Inv, Shaped, Apply, Locks, Unrepeated, BeginSafe, Taken, Left;
      ReclaimFacts(View(), Disconnect(connection), Connection(connection));
      var orphaned := table.TakeForConnection(connection);
      if orphaned == [] {
        return;
      }
      ApplySafeState(DevicesOf(orphaned));
    }

    /** `_rpc_lease_release` */
    method LeaseRelease(id: LeaseId)
      requires Valid()
      modifies this, table
      ensures Valid() && View() == Apply(old(View()), Release(id))
    {
      hide Inv, Shaped, Apply, Locks, Unrepeated, BeginSafe, Taken, Left;
      ReclaimFacts(View(), Release(id), Named(id));
      var lease := table.Release(id);
      if lease.Some? {
        assert DevicesOf([lease.value]) == {lease.value.device};
        ApplySafeState({lease.value.device});
      }
    }

    /** `_rpc_lease_renew` */
    method LeaseRenew(id: LeaseId, connection: nat, ttl: Option<int>) returns (r: Result<Lease, LeaseError>)
      requires Valid()
      modifies this, table
      ensures Valid() && View() == Apply(old(View()), Renew(id, connection, ttl))
    {
      hide Inv, Shaped, Locks, Unrepeated, Replace, Taken;
      StepKeeps(View(), Renew(id, connection, ttl));
      PositiveTtl(View(), id);
      r := table.Renew(id, ttl, Some(connection), now);
    }

    /** `_rpc_safety_estop` up to its first await: the latch, the leases, every driver. */
    method EmergencyStop(reason: string)
      requires Valid()
      modifies this, table, latch
      ensures Valid() && View() == Apply(old(View()), Estop)
    {
      hide Inv, Shaped, Locks, Unrepeated, BeginSafe;
      StopFacts(View());
      latch.Engage(reason);
      var _ := table.TakeAll();
      ApplySafeState(channels.Keys);
    }

    /** `_rpc_safety_estop_clear` */
    method EstopClear(mayCreateGrants: bool) returns (ok: bool)
      requires Valid()
      modifies latch
      ensures Valid() && ok == mayCreateGrants
      ensures View() == if ok then Apply(old(View()), Acknowledge) else old(View())
    {
      hide Inv, Shaped, Locks, Unrepeated;
      StepKeeps(View(), Acknowledge);
      ok := latch.Acknowledge(mayCreateGrants);
    }

    /** One timeline line per device of a finished safe state, in registry order. */
    method ListVerdicts(safe: SafeState) returns (added: seq<Verdict>)
      requires safe.generations.Keys == safe.progress.Keys
      ensures added == Verdicts(drivers, safe)
    {
      hide Verdicts;
      added := [];
      NoVerdicts(drivers, safe);
      for i := 0 to |drivers|
        invariant added == Verdicts(drivers[..i], safe)
      {
        var d := drivers[i];
        assert drivers[..i + 1] == drivers[..i] + [d];
        VerdictsSnoc(drivers[..i], d, safe);
        if d in safe.progress {
          added := added + [Verdict(d, safe.generations[d], Reassured(safe.progress[d]))];
        }
      }
      assert drivers[..|drivers|] == drivers;
    }

    /** The last stretch of `apply_safe_state`. */
    method PublishSafeState(s: SafeId)
      requires Valid() && Enabled(View(), SafePublish(s))
      modifies `log, `safes
      ensures Valid() && View() == Apply(old(View()), SafePublish(s))
    {
      hide Inv, Locks, Unrepeated, Verdicts;
      StepKeeps(View(), SafePublish(s));
      var added := ListVerdicts(safes[s]);
      log := log + added;
      safes := safes - {s};
    }
  }

  function Granted(r: Request, id: LeaseId, now: int): Lease
  {
    Lease(id, r.device, r.action, r.connection, now + r.ttl, r.ttl)
  }

  /** A call whose handler has written nothing yet. */
  function Started(r: Request, lease: Option<LeaseId>, generation: nat): Call
  {
    Call(r.device, r.action, r.kind, lease, generation, Running(false))
  }

  /** One safe state over these devices, with no driver back yet. */
  function Unfinished(selected: seq<Device>, generation: map<Device, nat>): SafeState
    requires forall d :: d in selected ==> d in generation
  {
    SafeState(map d | d in selected :: generation[d], map d | d in selected :: Working({}))
  }

  lemma BumpedKeys(before: map<Device, nat>, after: map<Device, nat>, done: seq<Device>)
    requires Bumps(before, after, done)
    ensures after.Keys == before.Keys
  {}

  lemma SelectedMeans(st: State, devices: set<Device>, selected: seq<Device>)
    requires Keyed(st) && Unrepeated(st.drivers) && selected == Selected(st.drivers, devices)
    ensures Unrepeated(selected)
    ensures forall d :: d in selected <==> d in devices * st.channels.Keys * st.generation.Keys
    ensures forall d :: d in selected ==> d in st.generation
    ensures selected == [] ==> BeginSafe(st, devices) == st
  {
    SelectedAre(st.drivers, devices);
    var ds := devices * st.channels.Keys * st.generation.Keys;
    if ds != {} { var d :| d in ds; assert d in selected; }
  }

  predicate Unrepeated(drivers: seq<Device>)
  {
    forall i, j :: 0 <= i < j < |drivers| ==> drivers[i] != drivers[j]
  }

  predicate Locks(locked: set<Device>, calls: map<CallId, Call>)
  {
    && (forall d :: d in locked ==> exists c :: c in calls && calls[c].device == d)
    && (forall c :: c in calls ==> calls[c].device in locked)
  }

  function Selected(drivers: seq<Device>, devices: set<Device>): seq<Device>
  {
    if drivers == [] then [] else
      var d := drivers[|drivers| - 1];
      Selected(drivers[..|drivers| - 1], devices) + (if d in devices then [d] else [])
  }

  lemma SelectedSnoc(drivers: seq<Device>, d: Device, devices: set<Device>)
    ensures Selected(drivers + [d], devices) == Selected(drivers, devices) + (if d in devices then [d] else [])
  {
    assert (drivers + [d])[..|drivers|] == drivers;
  }

  lemma {:induction false} SelectedAre(drivers: seq<Device>, devices: set<Device>)
    ensures forall d :: d in Selected(drivers, devices) <==> d in drivers && d in devices
    ensures Unrepeated(drivers) ==> Unrepeated(Selected(drivers, devices))
  {
    if drivers != [] {
      var front := drivers[..|drivers| - 1];
      LastSplit(drivers);
      SelectedAre(front, devices);
      assert Unrepeated(drivers) ==> drivers[|drivers| - 1] !in front;
    }
  }

  predicate Bumps(before: map<Device, nat>, after: map<Device, nat>, done: seq<Device>)
  {
    && after.Keys == before.Keys
    && forall d :: d in before ==> after[d] == before[d] + (if d in done then 1 else 0)
  }

  lemma SafeBegun(st: State, devices: set<Device>, selected: seq<Device>, generation: map<Device, nat>, safe: SafeState)
    requires Keyed(st) && selected != [] && Bumps(st.generation, generation, selected)
    requires forall d :: d in selected <==> d in devices * st.channels.Keys * st.generation.Keys
    requires forall d :: d in selected ==> d in generation
    requires safe == Unfinished(selected, generation)
    ensures BeginSafe(st, devices) ==
            st.(generation := generation, safes := st.safes[st.nextSafe := safe], nextSafe := st.nextSafe + 1)
  {
    hide BeginSafe;
    var next := BeginSafe(st, devices);
    var ds := devices * st.channels.Keys * st.generation.Keys;
    assert selected[0] in ds;
    Bumped(st, devices);
    assert next.generation == generation;
    BegunSafe(st, devices, ds);
    assert next.safes[st.nextSafe].generations == safe.generations;
    assert next.safes[st.nextSafe].progress == safe.progress;
  }

  lemma BegunSafe(st: State, devices: set<Device>, ds: set<Device>)
    requires ds == devices * st.channels.Keys * st.generation.Keys && ds != {}
    ensures var next := BeginSafe(st, devices);
            && st.nextSafe in next.safes
            && next == st.(generation := next.generation,
                           safes := st.safes[st.nextSafe := next.safes[st.nextSafe]], nextSafe := st.nextSafe + 1)
            && next.safes[st.nextSafe].generations.Keys == ds == next.safes[st.nextSafe].progress.Keys
            && forall d :: d in ds ==> next.safes[st.nextSafe].generations[d] == st.generation[d] + 1
                                       && next.safes[st.nextSafe].progress[d] == Working({})
  {}

  // ---- what the object's methods need to know of the model ---------------------------------

  lemma BeginFacts(st: State, r: Request, locked: set<Device>)
    requires Inv(st) && Shaped(st) && Enabled(st, Begin(r)) && Locks(locked, st.calls)
    ensures r.device in st.generation && Apply(st, Begin(r)) == Begun(st, r)
    ensures NoneMatch(st.leases, Named(st.nextLease))
    ensures r.device in locked <==> Busy(st, r.device)
    ensures !Accepted(st, r) ==> Begun(st, r) == st
    ensures Accepted(st, r) <==>
            && (r.kind.Deenergise? || r.granted)
            && (st.estop ==> r.kind.Deenergise? && r.allowedDuringEstop)
            && (r.kind.Energise? ==> r.ttl > 0)
            && r.device !in locked
    ensures forall call: Call :: call.device == r.device ==>
              Locks(locked + {r.device}, st.calls[st.nextCall := call])
    ensures Inv(Begun(st, r)) && Shaped(Begun(st, r))
  {
    hide Exclusive, SafesBounded, SafesApart, LogOk, LogApart, LeasesOwned, FreshAreLeased, CallOk, OutputsOk;
    StepKeeps(st, Begin(r));
    forall l | l in st.leases ensures l.id < st.nextLease {
      assert LeaseOk(l, st.now, st.nextLease, st.channels.Keys);
    }
    forall call: Call | call.device == r.device
      ensures Locks(locked + {r.device}, st.calls[st.nextCall := call])
    {
      LockTaken(st.calls, st.nextCall, call, locked);
    }
  }

  lemma BegunIs(st: State, r: Request, next: State)
    requires r.device in st.generation && Accepted(st, r)
    requires var leased := r.kind.Energise?;
             next == st.(
               leases := st.leases + (if leased then [Granted(r, st.nextLease, st.now)] else []),
               nextLease := st.nextLease + (if leased then 1 else 0),
               calls := st.calls[st.nextCall := Started(r, if leased then Some(st.nextLease) else None,
                                                        st.generation[r.device])],
               nextCall := st.nextCall + 1)
    ensures next == Begun(st, r)
  {
    assert st.leases + [] == st.leases;
  }

  lemma LockTaken(calls: map<CallId, Call>, c: CallId, call: Call, locked: set<Device>)
    requires Locks(locked, calls) && c !in calls
    ensures Locks(locked + {call.device}, calls[c := call])
  {
    var after := calls[c := call];
    forall d | d in locked + {call.device} ensures exists e :: e in after && after[e].device == d {
      if d == call.device {
        assert after[c].device == d;
      } else {
        var e :| e in calls && calls[e].device == d;
        assert e in after && after[e].device == d;
      }
    }
  }

  /** A call that ends: the model's step, and who holds the locks afterwards. */
  lemma EndFacts(st: State, step: Step, c: CallId, locked: set<Device>)
    requires Inv(st) && Shaped(st) && Enabled(st, step) && Locks(locked, st.calls)
    requires step == HandlerReturn(c) || (step.HandlerRaise? && step.call == c) || step == RevertDone(c)
    ensures Inv(Apply(st, step)) && Shaped(Apply(st, step)) && Keyed(st)
    ensures c in st.calls && st.calls[c].device in st.generation
    ensures step.HandlerReturn? ==>
              RunningCall(st, c) && Apply(st, step) == Finished(st, c) && Enabled(st, HandlerReturn(c))
    ensures step.RevertDone? ==> Apply(st, step) == Failed(st, c)
    ensures step.HandlerRaise? ==>
              && (step.late.Some? ==> MayWrite(st.calls[c].kind, step.late.value))
              && Apply(st, step) == LeftBehind(Failed(st, c), c, st.calls[c], step.late)
    ensures Locks(locked - {st.calls[c].device}, st.calls - {c})
  {
    hide SafesBounded, SafesApart, LogOk, LogApart, LeasesOwned, FreshAreLeased, OutputsOk, LeasesOk;
    StepKeeps(st, step);
    CallIsOk(st, c);
    LockGiven(st.calls, c, locked);
  }

  lemma LockGiven(calls: map<CallId, Call>, c: CallId, locked: set<Device>)
    requires Locks(locked, calls) && c in calls && Exclusive(calls)
    ensures Locks(locked - {calls[c].device}, calls - {c})
  {
    var after := calls - {c};
    forall e | e in after ensures after[e].device != calls[c].device {
      assert !SameOwner(calls[e], calls[c]);
    }
    forall d | d in locked - {calls[c].device} ensures exists e :: e in after && after[e].device == d {
      var e :| e in calls && calls[e].device == d;
      assert e in after && after[e].device == d;
    }
  }

  lemma LocksRelabelled(locked: set<Device>, calls: map<CallId, Call>, c: CallId, call: Call)
    requires Locks(locked, calls) && c in calls && call.device == calls[c].device
    ensures Locks(locked, calls[c := call])
  {
    var after := calls[c := call];
    forall d | d in locked ensures exists e :: e in after && after[e].device == d {
      var e :| e in calls && calls[e].device == d;
      assert e in after && after[e].device == d;
    }
  }


  lemma ReclaimFacts(st: State, step: Step, q: Query)
    requires Inv(st) && Shaped(st)
    requires (step == Sweep && q == ExpiredAt(st.now)) || (step.Disconnect? && q == Connection(step.connection))
             || (step.Release? && q == Named(step.lease))
    ensures Enabled(st, step) && Keyed(st) && Apply(st, step) == Reclaim(st, q)
    ensures Inv(Reclaim(st, q)) && Shaped(Reclaim(st, q))
    ensures Reclaim(st, q).calls == st.calls && Reclaim(st, q).drivers == st.drivers
    ensures Keyed(st.(leases := Left(st.leases, q)))
    ensures Taken(st.leases, q) == [] ==> Left(st.leases, q) == st.leases
  {
    hide Inv, Shaped, Taken, Left, Reclaim;
    StepKeeps(st, step);
    InvIsKeyed(st);
    NothingToTake(st.leases, q);
    ReclaimFrame(st, q);
  }

  lemma NothingToTake(leases: seq<Lease>, q: Query)
    ensures Taken(leases, q) == [] ==> Left(leases, q) == leases
  {
    hide Taken, Left;
    PickSplits(leases, q);
    if Taken(leases, q) == [] {
      forall l | l in leases ensures !Matches(q, l) {
        assert l !in Taken(leases, q);
      }
      PickNone(leases, q);
    }
  }

  lemma InvIsKeyed(st: State)
    requires Inv(st)
    ensures Keyed(st)
  {}

  lemma StopFacts(st: State)
    requires Inv(st) && Shaped(st)
    ensures Keyed(st) && Keyed(st.(estop := true, leases := []))
    ensures var next := Apply(st, Estop);
            && next == BeginSafe(st.(estop := true, leases := []), st.channels.Keys)
            && Inv(next) && Shaped(next) && next.calls == st.calls
  {
    hide Inv;
    StepKeeps(st, Estop);
    InvIsKeyed(st);
  }

  lemma PositiveTtl(st: State, id: LeaseId)
    requires Inv(st)
    ensures var found := Taken(st.leases, Named(id)); found != [] ==> found[0].ttl > 0
  {
    hide Taken;
    PickSplits(st.leases, Named(id));
    var found := Taken(st.leases, Named(id));
    if found != [] {
      assert found[0] in found;
      assert LeaseOk(found[0], st.now, st.nextLease, st.channels.Keys);
    }
  }

  lemma VerdictsSnoc(drivers: seq<Device>, d: Device, safe: SafeState)
    requires safe.generations.Keys == safe.progress.Keys
    ensures Verdicts(drivers + [d], safe) == Verdicts(drivers, safe)
            + (if d in safe.progress then [Verdict(d, safe.generations[d], Reassured(safe.progress[d]))] else [])
  {
    assert (drivers + [d])[..|drivers|] == drivers;
  }

  lemma NoVerdicts(drivers: seq<Device>, safe: SafeState)
    requires safe.generations.Keys == safe.progress.Keys
    ensures Verdicts(drivers[..0], safe) == []
  {}
}
