/**
 What single steps do to leases, generations and the timeline, in terms of the fields
 alone: expiry times, holders, ids, outcomes.
 */
module SafetySteps {
  import opened Bytes
  import opened SafetyModel
  import opened SafetyInvariant

  /** A new safe state is driving this device, and has done nothing on it yet. */
  ghost predicate DrivenSafe(st: State, next: State, d: Device)
  {
    && d in st.generation && d in next.generation && next.generation[d] == st.generation[d] + 1
    && st.nextSafe in next.safes && var safe := next.safes[st.nextSafe];
    d in safe.generations && safe.generations[d] == next.generation[d]
    && d in safe.progress && safe.progress[d] == Working({})
  }

  /** The safe states there were go on as they were. */
  ghost predicate OthersGoOn(st: State, next: State)
  {
    && (forall s :: s in st.safes ==> s in next.safes && next.safes[s] == st.safes[s])
    && (forall s :: s in next.safes ==> s in st.safes || s == st.nextSafe)
  }

  /** These leases stay, and exactly the devices of the others are driven safe. */
  ghost predicate Swept(st: State, next: State, stays: Lease -> bool)
  {
    && (forall l :: l in next.leases <==> l in st.leases && stays(l))
    && (forall d :: d in st.generation ==>
          if exists l :: l in st.leases && !stays(l) && l.device == d then DrivenSafe(st, next, d)
          else d in next.generation && next.generation[d] == st.generation[d]
               && (st.nextSafe in next.safes ==> d !in next.safes[st.nextSafe].generations))
    && OthersGoOn(st, next)
  }

  lemma SafeStarts(st: State, devices: set<Device>)
    requires Keyed(st) && st.generation.Keys == st.channels.Keys && st.nextSafe !in st.safes
    ensures var next := BeginSafe(st, devices);
            && next.leases == st.leases && next.estop == st.estop && OthersGoOn(st, next)
            && forall d :: d in st.generation ==>
                 if d in devices then DrivenSafe(st, next, d)
                 else d in next.generation && next.generation[d] == st.generation[d]
                      && (st.nextSafe in next.safes ==> d !in next.safes[st.nextSafe].generations)
  {
    hide BeginSafe, DrivenSafe, OthersGoOn;
    SafeFrame(st, devices);
    forall d | d in st.generation
      ensures var next := BeginSafe(st, devices);
              if d in devices then DrivenSafe(st, next, d)
              else d in next.generation && next.generation[d] == st.generation[d]
                   && (st.nextSafe in next.safes ==> d !in next.safes[st.nextSafe].generations)
    {
      SafeOn(st, devices, d);
    }
  }

  lemma SafeFrame(st: State, devices: set<Device>)
    requires st.nextSafe !in st.safes
    ensures var next := BeginSafe(st, devices);
            next.leases == st.leases && next.estop == st.estop && OthersGoOn(st, next)
  {}

  lemma SafeOn(st: State, devices: set<Device>, d: Device)
    requires Keyed(st) && st.generation.Keys == st.channels.Keys && st.nextSafe !in st.safes && d in st.generation
    ensures var next := BeginSafe(st, devices);
            if d in devices then DrivenSafe(st, next, d)
            else d in next.generation && next.generation[d] == st.generation[d]
                 && (st.nextSafe in next.safes ==> d !in next.safes[st.nextSafe].generations)
  {
    var ds := devices * st.channels.Keys * st.generation.Keys;
    assert d in devices <==> d in ds;
  }

  lemma NewSafeIsNew(st: State)
    requires Inv(st)
    ensures st.nextSafe !in st.safes && Keyed(st)
  {}

  lemma ReclaimSweeps(st: State, q: Query, stays: Lease -> bool)
    requires Inv(st) && Shaped(st)
    requires forall l :: l in st.leases ==> (stays(l) <==> !Matches(q, l))
    ensures Swept(st, Reclaim(st, q), stays)
  {
    hide Inv, BeginSafe, Matches, Taken, Left, DrivenSafe, OthersGoOn;
    NewSafeIsNew(st);
    PickSplits(st.leases, q);
    var taken, mid := Taken(st.leases, q), st.(leases := Left(st.leases, q));
    SafeStarts(mid, DevicesOf(taken));
    DevicesGone(st.leases, taken, stays);
    SameFields(st, mid, Reclaim(st, q));
    if taken == [] {
      assert forall l :: l in st.leases ==> l !in taken && stays(l);
      NothingStarts(st);
    }
  }

  lemma DevicesGone(leases: seq<Lease>, taken: seq<Lease>, stays: Lease -> bool)
    requires forall l :: l in taken <==> l in leases && !stays(l)
    ensures forall d :: d in DevicesOf(taken) <==> exists l :: l in leases && !stays(l) && l.device == d
  {
    forall d ensures d in DevicesOf(taken) <==> exists l :: l in leases && !stays(l) && l.device == d {
      if l :| l in leases && !stays(l) && l.device == d { assert l in taken; }
      if d in DevicesOf(taken) {
        var l :| l in taken && l.device == d;
        assert l in leases && !stays(l);
      }
    }
  }

  lemma NothingStarts(st: State)
    requires st.nextSafe !in st.safes
    ensures OthersGoOn(st, st)
  {}

  lemma SameFields(st: State, mid: State, next: State)
    requires mid == st.(leases := mid.leases)
    ensures OthersGoOn(mid, next) <==> OthersGoOn(st, next)
    ensures forall d :: DrivenSafe(mid, next, d) <==> DrivenSafe(st, next, d)
  {}

  /** The sweep takes the leases whose time is up, and drives their devices safe; no other. */
  lemma {:induction false} SweepTakesLapsed(st: State)
    requires Inv(st) && Shaped(st)
    ensures Swept(st, Apply(st, Sweep), (l: Lease) => st.now < l.expires)
  {
    hide Inv, Shaped, Swept, Reclaim;
    ReclaimSweeps(st, ExpiredAt(st.now), (l: Lease) => st.now < l.expires);
  }

  /** A lost client's leases go, and nobody else's. */
  lemma {:induction false} DisconnectTakesItsOwn(st: State, n: nat)
    requires Inv(st) && Shaped(st)
    ensures Swept(st, Apply(st, Disconnect(n)), (l: Lease) => l.connection != n)
  {
    hide Inv, Shaped, Swept, Reclaim;
    ReclaimSweeps(st, Connection(n), (l: Lease) => l.connection != n);
  }

  /** A release takes the lease of that id, and no other. */
  lemma {:induction false} ReleaseTakesIt(st: State, id: LeaseId)
    requires Inv(st) && Shaped(st)
    ensures Swept(st, Apply(st, Release(id)), (l: Lease) => l.id != id)
  {
    hide Inv, Shaped, Swept, Reclaim;
    ReclaimSweeps(st, Named(id), (l: Lease) => l.id != id);
  }

  /** An emergency stop takes them all, and drives every device safe. */
  lemma {:induction false} EstopTakesAll(st: State)
    requires Inv(st) && Shaped(st)
    ensures var next := Apply(st, Estop);
            && next.estop && next.leases == [] && OthersGoOn(st, next)
            && forall d :: d in st.channels ==> DrivenSafe(st, next, d)
  {
    hide Inv, BeginSafe, DrivenSafe, OthersGoOn;
    NewSafeIsNew(st);
    SafeStarts(st.(estop := true, leases := []), st.channels.Keys);
    StoppedFields(st, Apply(st, Estop));
  }

  lemma StoppedFields(st: State, next: State)
    ensures var mid := st.(estop := true, leases := []);
            && (OthersGoOn(mid, next) <==> OthersGoOn(st, next))
            && forall d :: DrivenSafe(mid, next, d) <==> DrivenSafe(st, next, d)
  {}

  /** Only these leases are gone from the table, and no lease is new. */
  ghost predicate Loses(st: State, next: State, goes: Lease -> bool)
  {
    forall l :: l in next.leases <==> l in st.leases && !goes(l)
  }

  /** A call begins under exactly these conditions, and an energising one takes a lease for its time. */
  lemma {:induction false} BeginMeans(st: State, r: Request)
    requires Inv(st) && Shaped(st) && Enabled(st, Begin(r))
    ensures var next := Apply(st, Begin(r));
            st.nextCall !in st.calls &&
            (st.nextCall in next.calls <==>
              && (r.kind.Deenergise? || r.granted)
              && (!st.estop || (r.kind.Deenergise? && r.allowedDuringEstop))
              && (r.kind.Energise? ==> r.ttl > 0)
              && (forall c :: c in st.calls ==> st.calls[c].device != r.device))
            && (st.nextCall !in next.calls ==> next == st)
            && (st.nextCall in next.calls ==>
                  var call := next.calls[st.nextCall];
                  && call.device == r.device && call.kind == r.kind && call.phase == Running(false)
                  && call.generation == st.generation[r.device] && call.action == r.action
                  && (call.lease.Some? <==> r.kind.Energise?)
                  && next.estop == st.estop && next.on == st.on && next.generation == st.generation
                  && forall l :: l in next.leases <==>
                       l in st.leases || (r.kind.Energise? && call.lease == Some(l.id) && l.device == r.device
                                          && l.action == r.action && l.connection == r.connection
                                          && l.expires == st.now + r.ttl && l.ttl == r.ttl))
  {
    hide Inv, Shaped;
    CallIdIsNew(st);
    if !Busy(st, r.device) {
      assert forall c :: c in st.calls ==> st.calls[c].device != r.device;
    } else {
      var c :| c in st.calls && st.calls[c].device == r.device;
    }
  }

  lemma CallHasDevice(st: State, c: CallId)
    requires Inv(st) && c in st.calls
    ensures st.calls[c].device in st.generation && st.calls[c].device in st.channels
  {
    assert CallOk(st.calls[c], st.channels, st.generation, st.on, st.nextLease);
  }

  lemma AbandonLoses(st: State, call: Call)
    ensures var next := Abandon(st, call);
            next == st.(leases := next.leases) && Loses(st, next, (l: Lease) => call.lease == Some(l.id))
  {
    hide Taken, Left;
    if call.lease.Some? { PickSplits(st.leases, Named(call.lease.value)); }
  }

  lemma CallIdIsNew(st: State)
    requires Inv(st)
    ensures st.nextCall !in st.calls
  {}

  /**
   A handler that comes back. If a safe state of its device has begun since, its own lease goes
   and the device is driven safe; if not, a switch-off takes the living leases of its action.
   */
  lemma {:induction false} ReturnMeans(st: State, c: CallId)
    requires Inv(st) && Shaped(st) && Enabled(st, HandlerReturn(c))
    ensures var next, call := Apply(st, HandlerReturn(c)), st.calls[c];
            && call.device in st.generation
            && (st.generation[call.device] != call.generation ==>
                  && Loses(st, next, (l: Lease) => call.lease == Some(l.id))
                  && DrivenSafe(st, next, call.device) && OthersGoOn(st, next)
                  && c in next.calls && next.calls[c].phase == Reverting(st.nextSafe))
            && (st.generation[call.device] == call.generation ==>
                  && Loses(st, next, (l: Lease) => call.kind.Deenergise? && l.device == call.device
                                                   && l.action == call.action && st.now < l.expires)
                  && next == st.(leases := next.leases, calls := st.calls - {c}))
  {
    hide Inv, DrivenSafe, OthersGoOn, Finished, Loses, Shaped;
    CallHasDevice(st, c);
    if st.generation[st.calls[c].device] != st.calls[c].generation {
      OvertakenReturn(st, c);
    } else {
      StandingReturn(st, c);
    }
  }

  lemma OvertakenReturn(st: State, c: CallId)
    requires Inv(st) && Shaped(st) && RunningCall(st, c) && st.calls[c].device in st.generation
    requires st.generation[st.calls[c].device] != st.calls[c].generation
    ensures var next, call := Finished(st, c), st.calls[c];
            && Loses(st, next, (l: Lease) => call.lease == Some(l.id))
            && DrivenSafe(st, next, call.device) && OthersGoOn(st, next)
            && c in next.calls && next.calls[c].phase == Reverting(st.nextSafe)
  {
    hide Inv, BeginSafe, Abandon, DrivenSafe, OthersGoOn;
    NewSafeIsNew(st);
    var call := st.calls[c];
    AbandonLoses(st, call);
    var mid := Abandon(st, call);
    var driven := BeginSafe(mid, {call.device});
    SafeStarts(mid, {call.device});
    SameFields(st, mid, driven);
    Relabelled(st, driven, Finished(st, c));
  }

  lemma StandingReturn(st: State, c: CallId)
    requires RunningCall(st, c) && st.calls[c].device in st.generation
    requires st.generation[st.calls[c].device] == st.calls[c].generation
    ensures var next, call := Finished(st, c), st.calls[c];
            && Loses(st, next, (l: Lease) => call.kind.Deenergise? && l.device == call.device
                                             && l.action == call.action && st.now < l.expires)
            && next == st.(leases := next.leases, calls := st.calls - {c})
  {
    hide Taken, Left, BeginSafe;
    var call := st.calls[c];
    PickSplits(st.leases, OutputOf(call.device, call.action, st.now));
  }

  lemma Relabelled(st: State, a: State, b: State)
    ensures b == a.(calls := b.calls) ==>
              (OthersGoOn(st, a) <==> OthersGoOn(st, b)) && forall d :: DrivenSafe(st, a, d) <==> DrivenSafe(st, b, d)
  {}

  /** A call that fails, or whose safe state is over or cancelled, gives up its own lease and no other. */
  lemma {:induction false} EndMeans(st: State, step: Step, c: CallId)
    requires Inv(st) && Shaped(st) && Enabled(st, step)
    requires (step.HandlerRaise? && step.call == c) || step == RevertDone(c) || step == RevertCancelled(c)
    ensures var next, call := Apply(st, step), st.calls[c];
            && Loses(st, next, (l: Lease) => call.lease == Some(l.id))
            && next.calls == st.calls - {c} && next.generation == st.generation && next.on == st.on
            && next.log == st.log
            && (step.RevertCancelled? ==> next.safes == st.safes - {call.phase.safe})
            && (!step.RevertCancelled? ==> next.safes == st.safes)
            && (forall e :: e != c ==>
                  (e in next.late <==> e in st.late) && (e in st.late ==> next.late[e] == st.late[e]))
            && (step.HandlerRaise? && step.late.Some? ==>
                  c in next.late && next.late[c].device == call.device && next.late[c].value == step.late.value
                  && !call.kind.Configure? && next.late[c].channel == call.kind.channel)
  {
    hide Inv, Shaped, Abandon;
    AbandonLoses(st, st.calls[c]);
  }

  /** A renewal restarts the holder's living lease, for the time asked but no longer than before. */
  lemma {:induction false} RenewMeans(st: State, id: LeaseId, n: nat, ttl: Option<int>, l: Lease)
    requires Inv(st) && Shaped(st) && l in st.leases && l.id == id
    ensures var next := Apply(st, Renew(id, n, ttl));
            var asked := if ttl.Some? then ttl.value else l.ttl;
            var given := if asked < l.ttl then asked else l.ttl;
            && (l.connection == n && st.now < l.expires && asked > 0 ==>
                  forall m :: m in next.leases <==>
                       (m in st.leases && m != l)
                       || m == Lease(id, l.device, l.action, n, st.now + given, given))
            && (!(l.connection == n && st.now < l.expires && asked > 0) ==> next == st)
  {
    hide Inv, Shaped, Taken, Replace;
    LeaseFacts(st, l);
    PickSplits(st.leases, Named(id));
    var found := Taken(st.leases, Named(id));
    assert l in found;
    assert found[0] in found && found[0] == l;
    Replaced(st.leases, l, Renewal(l, if ttl.Some? then ttl.value else l.ttl, st.now));
  }

  lemma LeaseFacts(st: State, l: Lease)
    requires Inv(st) && l in st.leases
    ensures l.ttl > 0 && forall m :: m in st.leases && m.id == l.id ==> m == l
  {
    assert LeaseOk(l, st.now, st.nextLease, st.channels.Keys);
  }

  lemma Replaced(leases: seq<Lease>, l: Lease, renewed: Lease)
    requires l in leases && l.id == renewed.id && forall m :: m in leases && m.id == l.id ==> m == l
    ensures forall m :: m in Replace(leases, renewed) <==> (m in leases && m != l) || m == renewed
  {
    var r := Replace(leases, renewed);
    var k :| 0 <= k < |leases| && leases[k] == l;
    assert r[k] == renewed;
    forall m | m in leases && m != l ensures m in r {
      var i :| 0 <= i < |leases| && leases[i] == m;
      assert r[i] == m;
    }
    forall m | m in r && m != renewed ensures m in leases && m != l {
      var i :| 0 <= i < |r| && r[i] == m;
      assert leases[i] == m;
    }
  }

  /**
   What a finished safe state puts on the timeline: a line for each of its devices, safe
   exactly if the driver returned and what it returned holds no error.
   */
  lemma {:induction false} PublishedLines(st: State, s: SafeId, v: Verdict)
    requires Inv(st) && Shaped(st) && Enabled(st, SafePublish(s))
    ensures var safe, log := st.safes[s], Apply(st, SafePublish(s)).log;
            && |st.log| <= |log| && log[..|st.log|] == st.log
            && (v in log[|st.log|..] <==>
                  v.device in safe.progress && v.generation == safe.generations[v.device]
                  && (v.safe <==> safe.progress[v.device] == Returned(Answered(false))))
            && Apply(st, SafePublish(s)) == st.(log := log, safes := st.safes - {s})
  {
    hide Inv, Verdicts;
    VerdictsListed(st.drivers, st.safes[s]);
    var lines := Verdicts(st.drivers, st.safes[s]);
    assert (st.log + lines)[|st.log|..] == lines;
  }

  /** A safe state is cancelled on its own if no overtaken call waits for it; nothing else changes. */
  lemma {:induction false} CancelMeans(st: State, s: SafeId)
    requires Inv(st) && Shaped(st)
    ensures Enabled(st, SafeCancelled(s)) <==>
            s in st.safes && !exists c :: c in st.calls && st.calls[c].phase.Reverting? && st.calls[c].phase.safe == s
    ensures Enabled(st, SafeCancelled(s)) ==> Apply(st, SafeCancelled(s)) == st.(safes := st.safes - {s})
  {
    hide Inv, Shaped;
  }

  /**
   Who waits for whom: an overtaken call for its safe state, a safe state for all its drivers;
   a switch-off comes back only after it has switched off.
   */
  lemma {:induction false} WaitMeans(st: State, c: CallId, s: SafeId)
    requires Inv(st) && Shaped(st)
    ensures Enabled(st, RevertDone(c)) <==>
            c in st.calls && exists t :: st.calls[c].phase == Reverting(t) && t !in st.safes
    ensures Enabled(st, RevertCancelled(c)) <==>
            c in st.calls && exists t :: st.calls[c].phase == Reverting(t) && t in st.safes
    ensures Enabled(st, HandlerReturn(c)) <==>
            c in st.calls && exists w :: st.calls[c].phase == Running(w) && (st.calls[c].kind.Deenergise? ==> w)
    ensures Enabled(st, SafePublish(s)) <==>
            s in st.safes && forall d :: d in st.safes[s].progress ==> !st.safes[s].progress[d].Working?
  {
    hide Inv, Shaped;
    if c in st.calls {
      var phase := st.calls[c].phase;
      assert phase.Reverting? ==> phase == Reverting(phase.safe);
      assert phase.Running? ==> phase == Running(phase.wrote);
    }
  }
}
