/**
 What every step of the safe-state protocol keeps. Each part of the invariant speaks
 of as little of the state as it can, so that a step only has to argue about the
 parts it touches.
 */
module SafetyInvariant {
  import opened Bytes
  import opened SafetyModel

  // ---- the parts ----------------------------------------------------------------------

  ghost predicate OutputsOk(on: map<Device, set<Channel>>, channels: map<Device, set<Channel>>)
  {
    forall d :: d in on && d in channels ==> on[d] <= channels[d]
  }

  ghost predicate LeaseOk(l: Lease, now: int, nextLease: LeaseId, devices: set<Device>)
  {
    l.id < nextLease && l.device in devices && l.ttl > 0 && l.expires <= now + l.ttl
  }

  /** Leases are told apart by their ids; none survives a latched ESTOP. */
  ghost predicate LeasesOk(
    leases: seq<Lease>, now: int, nextLease: LeaseId, devices: set<Device>, estop: bool)
  {
    && (forall l :: l in leases ==> LeaseOk(l, now, nextLease, devices))
    && (forall l, m :: l in leases && m in leases && l.id == m.id ==> l == m)
    && (estop ==> leases == [])
  }

  ghost predicate CallOk(
    call: Call, channels: map<Device, set<Channel>>, generation: map<Device, nat>,
    on: map<Device, set<Channel>>, nextLease: LeaseId)
  {
    && call.device in channels && call.device in generation && call.device in on
    && call.generation <= generation[call.device]
    && (!call.kind.Configure? ==> call.kind.channel in channels[call.device])
    && (call.kind.Energise? <==> call.lease.Some?)
    && (call.lease.Some? ==> call.lease.value < nextLease)
    && (call.kind.Configure? ==> call.phase != Running(true))
  }

  ghost predicate CallsOk(
    calls: map<CallId, Call>, nextCall: CallId, channels: map<Device, set<Channel>>,
    generation: map<Device, nat>, on: map<Device, set<Channel>>, nextLease: LeaseId)
  {
    forall c :: c in calls ==> c < nextCall && CallOk(calls[c], channels, generation, on, nextLease)
  }

  ghost predicate SameOwner(a: Call, b: Call)
  {
    a.device == b.device || (a.lease.Some? && a.lease == b.lease)
  }

  /** A device carries one state-changing call at a time, and a lease sustains one call. */
  ghost predicate Exclusive(calls: map<CallId, Call>)
  {
    forall c, e :: c in calls && e in calls && c != e ==> !SameOwner(calls[c], calls[e])
  }

  /** A lease still in the table belongs to the device of its call, which is not being reverted. */
  ghost predicate Owns(call: Call, leases: seq<Lease>)
  {
    forall l :: l in leases && call.lease == Some(l.id) ==>
                  l.device == call.device && call.phase.Running?
  }

  ghost predicate LeasesOwned(calls: map<CallId, Call>, leases: seq<Lease>)
  {
    forall c :: c in calls ==> Owns(calls[c], leases)
  }

  ghost predicate Leased(call: Call, leases: seq<Lease>)
  {
    exists l :: l in leases && call.lease == Some(l.id)
  }

  /** An energising call that no safe state has overtaken. */
  ghost predicate Fresh(call: Call, generation: map<Device, nat>)
  {
    call.kind.Energise? && call.phase.Running? && call.device in generation
    && generation[call.device] == call.generation
  }

  ghost predicate FreshAreLeased(
    calls: map<CallId, Call>, leases: seq<Lease>, generation: map<Device, nat>, estop: bool)
  {
    forall c :: c in calls && Fresh(calls[c], generation) ==> Leased(calls[c], leases) && !estop
  }

  ghost predicate Bounded(safe: SafeState, generation: map<Device, nat>)
  {
    && safe.generations.Keys == safe.progress.Keys
    && forall d :: d in safe.generations ==>
                     d in generation && 1 <= safe.generations[d] <= generation[d]
  }

  ghost predicate SafesBounded(
    safes: map<SafeId, SafeState>, nextSafe: SafeId, generation: map<Device, nat>)
  {
    forall s :: s in safes ==> s < nextSafe && Bounded(safes[s], generation)
  }

  ghost predicate Apart(g: map<Device, nat>, h: map<Device, nat>)
  {
    forall d :: d in g && d in h ==> g[d] != h[d]
  }

  /** Safe states in flight on one device have different generations. */
  ghost predicate SafesApart(safes: map<SafeId, SafeState>)
  {
    forall s, t :: s in safes && t in safes && s != t ==>
                     Apart(safes[s].generations, safes[t].generations)
  }

  ghost predicate Unlisted(log: seq<Verdict>, g: map<Device, nat>)
  {
    forall v :: v in log && v.device in g ==> g[v.device] != v.generation
  }

  ghost predicate LogOk(log: seq<Verdict>, generation: map<Device, nat>)
  {
    && (forall v :: v in log ==>
          v.device in generation && 1 <= v.generation <= generation[v.device])
    && (forall v, w :: v in log && w in log && (v.device, v.generation) == (w.device, w.generation)
          ==> v == w)
  }

  /** A safe state is either in flight or in the log. */
  ghost predicate LogApart(log: seq<Verdict>, safes: map<SafeId, SafeState>)
  {
    forall s :: s in safes ==> Unlisted(log, safes[s].generations)
  }

  /** A thread that outlived its call writes to a channel there is. */
  ghost predicate LateOk(late: map<CallId, Straggler>, channels: map<Device, set<Channel>>)
  {
    forall c :: c in late ==> late[c].device in channels && late[c].channel in channels[late[c].device]
  }

  ghost predicate Keyed(st: State)
  {
    && st.generation.Keys == st.channels.Keys && st.on.Keys == st.channels.Keys
    && (forall d :: d in st.drivers <==> d in st.channels)
  }

  ghost predicate Loose(st: State)
  {
    && Keyed(st)
    && OutputsOk(st.on, st.channels)
    && LeasesOk(st.leases, st.now, st.nextLease, st.channels.Keys, st.estop)
    && CallsOk(st.calls, st.nextCall, st.channels, st.generation, st.on, st.nextLease)
    && Exclusive(st.calls)
    && LeasesOwned(st.calls, st.leases)
    && SafesBounded(st.safes, st.nextSafe, st.generation)
    && SafesApart(st.safes)
    && LogOk(st.log, st.generation)
    && LogApart(st.log, st.safes)
    && LateOk(st.late, st.channels)
  }

  ghost predicate Inv(st: State)
  {
    Loose(st) && FreshAreLeased(st.calls, st.leases, st.generation, st.estop)
  }

  lemma InvIsShaped(st: State)
    requires Inv(st)
    ensures Shaped(st)
  {
    assert forall c :: c in st.calls ==>
        CallOk(st.calls[c], st.channels, st.generation, st.on, st.nextLease);
    assert forall s :: s in st.safes ==> Bounded(st.safes[s], st.generation);
  }

  // ---- leases -----------------------------------------------------------------------

  lemma LeftLeases(leases: seq<Lease>, q: Query, now: int, next: LeaseId, ds: set<Device>,
                   estop: bool, calls: map<CallId, Call>)
    requires LeasesOk(leases, now, next, ds, estop) && LeasesOwned(calls, leases)
    ensures LeasesOk(Left(leases, q), now, next, ds, estop) && LeasesOwned(calls, Left(leases, q))
  {
    PickSplits(leases, q);
    forall c | c in calls ensures Owns(calls[c], Left(leases, q)) {
      assert Owns(calls[c], leases);
    }
  }

  lemma LeaseAdded(leases: seq<Lease>, l: Lease, now: int, next: LeaseId, ds: set<Device>)
    requires LeasesOk(leases, now, next, ds, false) && LeaseOk(l, now, next + 1, ds) && l.id == next
    ensures LeasesOk(leases + [l], now, next + 1, ds, false)
  {
    forall m | m in leases + [l] ensures m == l || (m in leases && m.id < next) {
      assert m in leases ==> LeaseOk(m, now, next, ds);
    }
    forall m | m in leases + [l] ensures LeaseOk(m, now, next + 1, ds) {
      assert m in leases ==> LeaseOk(m, now, next, ds);
    }
  }

  lemma ReplaceMembers(leases: seq<Lease>, l: Lease, renewed: Lease)
    requires l in leases && renewed.id == l.id
    requires forall m :: m in leases && m.id == l.id ==> m == l
    ensures forall m :: m in Replace(leases, renewed) <==> m == renewed || (m in leases && m != l)
  {
    var r := Replace(leases, renewed);
    var k :| 0 <= k < |leases| && leases[k] == l;
    assert r[k] == renewed;
    forall m | m in leases && m != l ensures m in r {
      var i :| 0 <= i < |leases| && leases[i] == m;
      assert r[i] == m;
    }
  }

  lemma LeaseRenewed(leases: seq<Lease>, l: Lease, ttl: int, now: int, next: LeaseId,
                     ds: set<Device>, estop: bool, calls: map<CallId, Call>)
    requires LeasesOk(leases, now, next, ds, estop) && LeasesOwned(calls, leases)
    requires l in leases && ttl > 0
    ensures LeasesOk(Replace(leases, Renewal(l, ttl, now)), now, next, ds, estop)
    ensures LeasesOwned(calls, Replace(leases, Renewal(l, ttl, now)))
    ensures forall c :: c in calls && Leased(calls[c], leases) ==>
              Leased(calls[c], Replace(leases, Renewal(l, ttl, now)))
  {
    var renewed := Renewal(l, ttl, now);
    var after := Replace(leases, renewed);
    ReplaceMembers(leases, l, renewed);
    assert LeaseOk(l, now, next, ds);
    forall c | c in calls ensures Owns(calls[c], after) {
      assert Owns(calls[c], leases);
    }
    forall c | c in calls && Leased(calls[c], leases) ensures Leased(calls[c], after) {
      var m :| m in leases && calls[c].lease == Some(m.id);
      assert (if m == l then renewed else m) in after;
    }
  }

  // ---- safe states --------------------------------------------------------------------

  lemma BeginSafeIsLoose(st: State, devices: set<Device>)
    requires Loose(st)
    ensures Loose(BeginSafe(st, devices))
  {
    hide OutputsOk, LeasesOk, LeasesOwned, Exclusive, CallsOk, SafesBounded, SafesApart, LogOk, LogApart;
    var next := BeginSafe(st, devices);
    var ds := devices * st.channels.Keys * st.generation.Keys;
    if ds != {} {
      var g, h := st.generation, next.generation;
      assert h.Keys == g.Keys && forall d :: d in g ==> h[d] == if d in ds then g[d] + 1 else g[d];
      CallsAge(st.calls, st.nextCall, st.channels, g, h, st.on, st.nextLease);
      SafesAge(st.safes, st.nextSafe, st.log, g, h, next.safes[st.nextSafe], ds);
    }
  }

  lemma InitialInv(st: State)
    requires Initial(st)
    ensures Inv(st)
  {
    hide BeginSafe;
    var found := Found(st.drivers, st.channels, st.on, st.now);
    BeginSafeIsLoose(found, st.channels.Keys);
    BeginSafeFrame(found, st.channels.Keys);
  }

  lemma CallsAge(calls: map<CallId, Call>, nextCall: CallId, channels: map<Device, set<Channel>>,
                 g: map<Device, nat>, h: map<Device, nat>, on: map<Device, set<Channel>>, next: LeaseId)
    requires CallsOk(calls, nextCall, channels, g, on, next)
    requires h.Keys == g.Keys && forall d :: d in g ==> g[d] <= h[d]
    ensures CallsOk(calls, nextCall, channels, h, on, next)
  {
    forall c | c in calls ensures CallOk(calls[c], channels, h, on, next) {
      assert CallOk(calls[c], channels, g, on, next);
    }
  }

  lemma SafesAge(safes: map<SafeId, SafeState>, nextSafe: SafeId, log: seq<Verdict>,
                 g: map<Device, nat>, h: map<Device, nat>, added: SafeState, ds: set<Device>)
    requires SafesBounded(safes, nextSafe, g) && SafesApart(safes) && LogOk(log, g) && LogApart(log, safes)
    requires h.Keys == g.Keys && ds <= g.Keys
    requires forall d :: d in g ==> h[d] == if d in ds then g[d] + 1 else g[d]
    requires added.generations.Keys == ds && added.progress.Keys == ds
    requires forall d :: d in ds ==> added.generations[d] == h[d]
    ensures SafesBounded(safes[nextSafe := added], nextSafe + 1, h)
    ensures SafesApart(safes[nextSafe := added])
    ensures LogOk(log, h) && LogApart(log, safes[nextSafe := added])
  {
    forall s | s in safes
      ensures s < nextSafe && Bounded(safes[s], h) && Apart(safes[s].generations, added.generations)
    {
      assert Bounded(safes[s], g);
    }
  }

  lemma SafeProgresses(st: State, s: SafeId, progress: map<Device, Progress>)
    requires s in st.safes && progress.Keys == st.safes[s].progress.Keys
    requires SafesBounded(st.safes, st.nextSafe, st.generation) && SafesApart(st.safes)
    requires LogApart(st.log, st.safes)
    ensures SafesBounded(st.safes[s := st.safes[s].(progress := progress)], st.nextSafe, st.generation)
    ensures SafesApart(st.safes[s := st.safes[s].(progress := progress)])
    ensures LogApart(st.log, st.safes[s := st.safes[s].(progress := progress)])
  {
    var after := st.safes[s := st.safes[s].(progress := progress)];
    forall t | t in after ensures Bounded(after[t], st.generation) && t < st.nextSafe
                                  && Unlisted(st.log, after[t].generations) {
      assert Bounded(st.safes[t], st.generation) && Unlisted(st.log, st.safes[t].generations);
    }
    forall t | t in after ensures t in st.safes && after[t].generations == st.safes[t].generations {}
  }

  lemma SafeForgotten(st: State, s: SafeId)
    requires SafesBounded(st.safes, st.nextSafe, st.generation) && SafesApart(st.safes)
    requires LogApart(st.log, st.safes)
    ensures SafesBounded(st.safes - {s}, st.nextSafe, st.generation) && SafesApart(st.safes - {s})
    ensures LogApart(st.log, st.safes - {s})
  {}

  lemma {:induction false} VerdictsListed(drivers: seq<Device>, safe: SafeState)
    requires safe.generations.Keys == safe.progress.Keys
    ensures forall v :: v in Verdicts(drivers, safe) <==>
              v.device in drivers && v.device in safe.progress
              && v.generation == safe.generations[v.device]
              && v.safe == Reassured(safe.progress[v.device])
  {
    if drivers != [] {
      LastSplit(drivers);
      VerdictsListed(drivers[..|drivers| - 1], safe);
    }
  }

  lemma SafePublished(st: State, s: SafeId)
    requires s in st.safes && SafesBounded(st.safes, st.nextSafe, st.generation)
    requires SafesApart(st.safes) && LogOk(st.log, st.generation) && LogApart(st.log, st.safes)
    requires st.safes[s].generations.Keys == st.safes[s].progress.Keys
    ensures LogOk(st.log + Verdicts(st.drivers, st.safes[s]), st.generation)
    ensures LogApart(st.log + Verdicts(st.drivers, st.safes[s]), st.safes - {s})
  {
    var safe := st.safes[s];
    var added := Verdicts(st.drivers, safe);
    VerdictsListed(st.drivers, safe);
    assert Bounded(safe, st.generation) && Unlisted(st.log, safe.generations);
    forall t | t in st.safes && t != s ensures Unlisted(st.log + added, st.safes[t].generations) {
      assert Apart(safe.generations, st.safes[t].generations) && Unlisted(st.log, st.safes[t].generations);
    }
  }

  // ---- calls --------------------------------------------------------------------------

  lemma CallAdded(st: State, call: Call, leases: seq<Lease>, nextLease: LeaseId)
    requires Loose(st) && !Busy(st, call.device) && nextLease >= st.nextLease
    requires call.phase == Running(false)
    requires CallOk(call, st.channels, st.generation, st.on, nextLease)
    requires call.lease == None || (call.lease == Some(st.nextLease) && nextLease > st.nextLease)
    requires forall l :: l in leases ==> l in st.leases || (call.lease == Some(l.id) && l.device == call.device)
    ensures var calls := st.calls[st.nextCall := call];
            && CallsOk(calls, st.nextCall + 1, st.channels, st.generation, st.on, nextLease)
            && Exclusive(calls) && LeasesOwned(calls, leases)
  {
    var calls := st.calls[st.nextCall := call];
    forall c | c in st.calls
      ensures c < st.nextCall && CallOk(calls[c], st.channels, st.generation, st.on, nextLease)
      ensures !SameOwner(st.calls[c], call) && Owns(calls[c], leases)
    {
      assert CallOk(st.calls[c], st.channels, st.generation, st.on, st.nextLease);
      assert Owns(st.calls[c], st.leases);
    }
    forall l | l in st.leases ensures call.lease != Some(l.id) {
      assert LeaseOk(l, st.now, st.nextLease, st.channels.Keys);
    }
  }

  /** One call changes phase, and its own channel may change. */
  lemma CallChanged(st: State, c: CallId, phase: Phase, on: map<Device, set<Channel>>)
    requires Loose(st) && c in st.calls && on.Keys == st.on.Keys
    requires CallOk(st.calls[c].(phase := phase), st.channels, st.generation, on, st.nextLease)
    requires phase.Running? || forall l :: l in st.leases ==> st.calls[c].lease != Some(l.id)
    requires st.calls[c].phase.Running?
    ensures var calls := st.calls[c := st.calls[c].(phase := phase)];
            && CallsOk(calls, st.nextCall, st.channels, st.generation, on, st.nextLease)
            && Exclusive(calls) && LeasesOwned(calls, st.leases)
  {
    var calls := st.calls[c := st.calls[c].(phase := phase)];
    forall e | e in calls
      ensures e in st.calls && e < st.nextCall
      ensures SameOwner(calls[e], calls[e]) && calls[e].device == st.calls[e].device
      ensures calls[e].lease == st.calls[e].lease
      ensures CallOk(calls[e], st.channels, st.generation, on, st.nextLease)
      ensures Owns(calls[e], st.leases)
    {
      assert CallOk(st.calls[e], st.channels, st.generation, st.on, st.nextLease);
      assert Owns(st.calls[e], st.leases);
      assert e != c ==> !SameOwner(st.calls[e], st.calls[c]);
    }
    forall d, e | d in calls && e in calls && d != e ensures !SameOwner(calls[d], calls[e]) {
      assert !SameOwner(st.calls[d], st.calls[e]);
    }
  }

  lemma OutputsShrink(st: State, on: map<Device, set<Channel>>)
    requires Loose(st) && on.Keys == st.on.Keys
    requires forall d :: d in on ==> on[d] <= st.on[d]
    ensures OutputsOk(on, st.channels)
    ensures CallsOk(st.calls, st.nextCall, st.channels, st.generation, on, st.nextLease)
  {
    forall c | c in st.calls
      ensures CallOk(st.calls[c], st.channels, st.generation, on, st.nextLease)
    {
      assert CallOk(st.calls[c], st.channels, st.generation, st.on, st.nextLease);
    }
  }

  lemma CallDropped(st: State, c: CallId)
    requires Loose(st)
    ensures Loose(DropCall(st, c))
  {
    hide OutputsOk, LeasesOk, SafesBounded, SafesApart, LogOk, LogApart, CallOk, Owns;
  }

  lemma LeftIsLoose(st: State, q: Query)
    requires Loose(st)
    ensures Loose(st.(leases := Left(st.leases, q)))
  {
    hide OutputsOk, LeasesOk, LeasesOwned, CallsOk, Exclusive, SafesBounded, SafesApart, LogOk, LogApart;
    LeftLeases(st.leases, q, st.now, st.nextLease, st.channels.Keys, st.estop, st.calls);
  }

  lemma AbandonIsLoose(st: State, call: Call)
    requires Loose(st)
    ensures Loose(Abandon(st, call))
  {
    if call.lease.Some? { LeftIsLoose(st, Named(call.lease.value)); }
  }

  // ---- one lemma per kind of step -----------------------------------------------------

  lemma BeginKeeps(st: State, r: Request)
    requires Inv(st) && Shaped(st) && Enabled(st, Begin(r))
    ensures Inv(Begun(st, r))
  {
    hide OutputsOk, LeasesOk, CallsOk, Exclusive, SafesBounded, SafesApart, LogOk, LogApart, LeasesOwned;
    var next := Begun(st, r);
    if Accepted(st, r) {
      var call := next.calls[st.nextCall];
      if r.kind.Energise? {
        var lease := next.leases[|st.leases|];
        LeaseAdded(st.leases, lease, st.now, st.nextLease, st.channels.Keys);
        assert lease in next.leases;
      }
      CallAdded(st, call, next.leases, next.nextLease);
      assert forall c :: c in st.calls && Leased(st.calls[c], st.leases) ==>
                           Leased(st.calls[c], next.leases);
    }
  }

  lemma WriteIsLoose(st: State, c: CallId, value: bool)
    requires Loose(st) && Shaped(st) && Enabled(st, HandlerWrite(c, value))
    ensures Loose(Written(st, c, value))
  {
    hide LeasesOk, CallsOk, Exclusive, SafesBounded, SafesApart, LogOk, LogApart, LeasesOwned,
         OutputsOk;
    var next := Written(st, c, value);
    CallIsOk(st, c);
    CallChanged(st, c, next.calls[c].phase, next.on);
    OutputWritten(st, c, value);
  }

  lemma WriteKeeps(st: State, c: CallId, value: bool)
    requires Inv(st) && Shaped(st) && Enabled(st, HandlerWrite(c, value))
    ensures Inv(Written(st, c, value))
  {
    hide Loose, Leased;
    WriteIsLoose(st, c, value);
    var next := Written(st, c, value);
    forall e | e in next.calls && Fresh(next.calls[e], next.generation)
      ensures Leased(next.calls[e], next.leases)
    {
      SameLease(st.calls[e], next.calls[e], st.leases);
    }
  }

  lemma OutputWritten(st: State, c: CallId, value: bool)
    requires Loose(st) && Shaped(st) && Enabled(st, HandlerWrite(c, value))
    ensures OutputsOk(Written(st, c, value).on, st.channels)
  {
    CallIsOk(st, c);
  }

  lemma SameLease(a: Call, b: Call, leases: seq<Lease>)
    requires a.lease == b.lease
    ensures Leased(a, leases) == Leased(b, leases)
  {}

  lemma CallIsOk(st: State, c: CallId)
    requires Loose(st) && c in st.calls
    ensures CallOk(st.calls[c], st.channels, st.generation, st.on, st.nextLease)
    ensures Owns(st.calls[c], st.leases)
  {}

  lemma ReclaimKeeps(st: State, q: Query)
    requires Inv(st)
    ensures Inv(Reclaim(st, q))
  {
    hide OutputsOk, LeasesOk, CallsOk, CallOk, Exclusive, SafesBounded, SafesApart, LogOk, LogApart,
         LeasesOwned;
    LeftIsLoose(st, q);
    PickSplits(st.leases, q);
    var taken := Taken(st.leases, q);
    var next := Reclaim(st, q);
    if taken != [] {
      BeginSafeIsLoose(st.(leases := Left(st.leases, q)), DevicesOf(taken));
      forall c | c in next.calls && Fresh(next.calls[c], next.generation)
        ensures Leased(next.calls[c], next.leases) && !next.estop
      {
        CallIsOk(st, c);
        FreshNotDriven(st.(leases := Left(st.leases, q)), DevicesOf(taken), st.calls[c]);
        var l :| l in st.leases && st.calls[c].lease == Some(l.id);
        assert l in next.leases;
      }
    }
  }

  /** A generation only moves up: a call that is fresh now was so before, and its device was spared. */
  lemma FreshNotDriven(st: State, devices: set<Device>, call: Call)
    requires Keyed(st) && CallOk(call, st.channels, st.generation, st.on, st.nextLease)
    requires Fresh(call, BeginSafe(st, devices).generation)
    ensures Fresh(call, st.generation) && call.device !in devices
  {
    Bumped(st, devices);
  }

  /** Exactly the devices driven safe get a new generation. */
  lemma Bumped(st: State, devices: set<Device>)
    requires Keyed(st)
    ensures BeginSafe(st, devices).generation.Keys == st.generation.Keys
    ensures forall d :: d in st.generation ==>
              BeginSafe(st, devices).generation[d] == st.generation[d] + (if d in devices then 1 else 0)
  {
    assert forall d :: d in st.generation && d in devices ==>
                         d in devices * st.channels.Keys * st.generation.Keys;
  }

  lemma EstopKeeps(st: State)
    requires Inv(st)
    ensures Inv(BeginSafe(st.(estop := true, leases := []), st.channels.Keys))
  {
    hide OutputsOk, CallsOk, Exclusive, SafesBounded, SafesApart, LogOk, LogApart;
    var mid := st.(estop := true, leases := []);
    assert Loose(mid);
    var next := BeginSafe(mid, st.channels.Keys);
    BeginSafeIsLoose(mid, st.channels.Keys);
    forall c | c in next.calls ensures !Fresh(next.calls[c], next.generation) {
      CallIsOk(st, c);
      if Fresh(next.calls[c], next.generation) { FreshNotDriven(mid, st.channels.Keys, st.calls[c]); }
    }
  }

  lemma AbandonOthers(st: State, c: CallId, e: CallId)
    requires Loose(st) && c in st.calls && e in st.calls && c != e
    ensures Leased(st.calls[e], st.leases) ==>
              Leased(st.calls[e], Abandon(st, st.calls[c]).leases)
  {
    assert !SameOwner(st.calls[c], st.calls[e]);
    if st.calls[c].lease.Some? && Leased(st.calls[e], st.leases) {
      PickSplits(st.leases, Named(st.calls[c].lease.value));
      var l :| l in st.leases && st.calls[e].lease == Some(l.id);
      assert l in Abandon(st, st.calls[c]).leases;
    }
  }

  lemma FailKeeps(st: State, c: CallId)
    requires Inv(st) && c in st.calls
    ensures Inv(Failed(st, c))
  {
    var call := st.calls[c];
    var mid := Abandon(st, call);
    assert Loose(DropCall(mid, c)) by {
      AbandonIsLoose(st, call);
      CallDropped(mid, c);
    }
    forall e | e in mid.calls && e != c && Fresh(mid.calls[e], mid.generation)
      ensures Leased(mid.calls[e], mid.leases) && !mid.estop
    {
      AbandonOthers(st, c, e);
    }
  }

  lemma RevertIsLoose(st: State, c: CallId)
    requires Loose(st) && Shaped(st) && Enabled(st, HandlerReturn(c)) && Superseded(st, c)
    ensures Loose(Finished(st, c))
  {
    hide Loose;
    var call := st.calls[c];
    var mid := Abandon(st, call);
    AbandonIsLoose(st, call);
    BeginSafeIsLoose(mid, {call.device});
    LeaseIsGone(st, call);
    RevertingIsOk(BeginSafe(mid, {call.device}), c, st.nextSafe);
  }

  lemma LeaseIsGone(st: State, call: Call)
    ensures forall l :: l in Abandon(st, call).leases ==> call.lease != Some(l.id)
  {
    if call.lease.Some? { PickSplits(st.leases, Named(call.lease.value)); }
  }

  /** A superseded call: its lease goes, its device is driven safe again, it waits for that. */
  lemma RevertKeeps(st: State, c: CallId)
    requires Inv(st) && Shaped(st) && Enabled(st, HandlerReturn(c)) && Superseded(st, c)
    ensures Inv(Finished(st, c))
  {
    hide Loose, Leased, BeginSafe, Abandon, LeasesOk;
    RevertIsLoose(st, c);
    var safed := BeginSafe(Abandon(st, st.calls[c]), {st.calls[c].device});
    AbandonFrame(st, st.calls[c]);
    BeginSafeFrame(Abandon(st, st.calls[c]), {st.calls[c].device});
    forall e | e in st.calls && e != c && Fresh(st.calls[e], safed.generation)
      ensures Leased(st.calls[e], safed.leases) && !safed.estop
    {
      OtherStaysLeased(st, c, e);
    }
  }

  lemma OtherStaysLeased(st: State, c: CallId, e: CallId)
    requires Inv(st) && c in st.calls && e in st.calls && e != c
    requires Fresh(st.calls[e], BeginSafe(Abandon(st, st.calls[c]), {st.calls[c].device}).generation)
    ensures Leased(st.calls[e], Abandon(st, st.calls[c]).leases) && !st.estop
  {
    hide OutputsOk, LeasesOk, CallsOk, CallOk, Exclusive, SafesBounded, SafesApart, LogOk, LogApart,
         LeasesOwned, Leased;
    CallIsOk(st, e);
    FreshNotDriven(Abandon(st, st.calls[c]), {st.calls[c].device}, st.calls[e]);
    AbandonOthers(st, c, e);
  }

  lemma RevertingIsOk(st: State, c: CallId, s: SafeId)
    requires Loose(st) && c in st.calls && st.calls[c].phase.Running?
    requires forall l :: l in st.leases ==> st.calls[c].lease != Some(l.id)
    ensures Loose(st.(calls := st.calls[c := st.calls[c].(phase := Reverting(s))]))
  {
    hide LeasesOk, OutputsOk, Exclusive, SafesBounded, SafesApart, LogOk, LogApart;
    CallIsOk(st, c);
    CallChanged(st, c, Reverting(s), st.on);
  }

  lemma ReturnKeeps(st: State, c: CallId)
    requires Inv(st) && Shaped(st) && Enabled(st, HandlerReturn(c))
    ensures Inv(Finished(st, c))
  {
    hide OutputsOk, LeasesOk, CallsOk, CallOk, SafesBounded, SafesApart, LogOk, LogApart, LeasesOwned;
    var call := st.calls[c];
    if Superseded(st, c) {
      RevertKeeps(st, c);
    } else if call.kind.Deenergise? {
      var q := OutputOf(call.device, call.action, st.now);
      LeftIsLoose(st, q);
      PickSplits(st.leases, q);
      CallDropped(st.(leases := Left(st.leases, q)), c);
      var next := Finished(st, c);
      forall e | e in next.calls && Fresh(next.calls[e], next.generation)
        ensures Leased(next.calls[e], next.leases) && !next.estop
      {
        CallIsOk(st, e);
        assert !SameOwner(st.calls[c], st.calls[e]);
        var l :| l in st.leases && st.calls[e].lease == Some(l.id);
        assert l in next.leases;
      }
    } else {
      CallDropped(st, c);
    }
  }

  lemma RenewKeeps(st: State, id: LeaseId, connection: nat, ttl: Option<int>)
    requires Inv(st)
    ensures Inv(Renewed(st, id, connection, ttl))
  {
    hide OutputsOk, CallsOk, Exclusive, SafesBounded, SafesApart, LogOk, LogApart, Leased;
    PickSplits(st.leases, Named(id));
    var found := Taken(st.leases, Named(id));
    if found != [] && Renewable(st, found[0], connection, ttl) {
      var l := found[0];
      assert l in found;
      assert LeaseOk(l, st.now, st.nextLease, st.channels.Keys);
      LeaseRenewed(st.leases, l, if ttl.Some? then ttl.value else l.ttl, st.now, st.nextLease,
                   st.channels.Keys, st.estop, st.calls);
    }
  }

  lemma SafeWriteKeeps(st: State, s: SafeId, d: Device, ch: Channel)
    requires Inv(st) && Shaped(st) && Enabled(st, SafeWrite(s, d, ch))
    ensures Inv(SafeWritten(st, s, d, ch))
  {
    hide LeasesOk, CallsOk, Exclusive, SafesBounded, SafesApart, LogOk, LogApart, LeasesOwned,
         FreshAreLeased, OutputsOk;
    var next := SafeWritten(st, s, d, ch);
    OutputsShrink(st, next.on);
    SafeProgresses(st, s, next.safes[s].progress);
  }

  lemma SafeReturnKeeps(st: State, s: SafeId, d: Device, outcome: Outcome)
    requires Inv(st) && Shaped(st) && Enabled(st, SafeReturn(s, d, outcome))
    ensures Inv(SafeReturned(st, s, d, outcome))
  {
    hide LeasesOk, CallsOk, Exclusive, SafesBounded, SafesApart, LogOk, LogApart, LeasesOwned,
         FreshAreLeased, OutputsOk;
    SafeProgresses(st, s, st.safes[s].progress[d := Returned(outcome)]);
  }

  lemma ForgetKeeps(st: State, s: SafeId)
    requires Inv(st)
    ensures Inv(st.(safes := st.safes - {s}))
  {
    hide LeasesOk, CallsOk, Exclusive, SafesBounded, SafesApart, LogOk, LogApart, LeasesOwned,
         FreshAreLeased, OutputsOk;
    SafeForgotten(st, s);
  }

  lemma PublishKeeps(st: State, s: SafeId)
    requires Inv(st) && Shaped(st) && s in st.safes
    ensures Inv(st.(safes := st.safes - {s}, log := st.log + Verdicts(st.drivers, st.safes[s])))
  {
    hide LeasesOk, CallsOk, Exclusive, SafesBounded, SafesApart, LogOk, LogApart, LeasesOwned,
         FreshAreLeased, OutputsOk;
    SafeForgotten(st, s);
    SafePublished(st, s);
  }

  lemma QuietKeeps(st: State, elapsed: nat)
    requires Inv(st)
    ensures Inv(st.(estop := false)) && Inv(st.(now := st.now + elapsed))
  {
    hide CallsOk, Exclusive, SafesBounded, SafesApart, LogOk, LogApart, LeasesOwned, OutputsOk;
  }

  /** Every step keeps the invariant. */
  lemma {:induction false} StepKeeps(st: State, step: Step)
    requires Inv(st) && Shaped(st) && Enabled(st, step)
    ensures Inv(Apply(st, step)) && Shaped(Apply(st, step))
  {
    hide Inv, Loose, Shaped, Begun, Written, Finished, Reclaim, BeginSafe, Renewed, SafeWritten,
         SafeReturned, Failed, RevertAborted, Verdicts, LeftBehind, LateWritten;
    match step {
    case Begin(r) => BeginKeeps(st, r);
    case HandlerWrite(c, value) => WriteKeeps(st, c, value);
    case HandlerReturn(c) => ReturnKeeps(st, c);
    case HandlerRaise(c, late) => RaiseKeeps(st, c, late);
    case LateWrite(c) => LateKeeps(st, c);
    case RevertDone(c) => FailKeeps(st, c);
    case RevertCancelled(c) =>
      AbortKeeps(st, c);
    case Sweep => ReclaimKeeps(st, ExpiredAt(st.now));
    case Disconnect(n) => ReclaimKeeps(st, Connection(n));
    case Release(id) => ReclaimKeeps(st, Named(id));
    case Renew(id, n, ttl) => RenewKeeps(st, id, n, ttl);
    case Estop => EstopKeeps(st);
    case Acknowledge => QuietKeeps(st, 0);
    case Tick(t) => QuietKeeps(st, t);
    case SafeWrite(s, d, ch) => SafeWriteKeeps(st, s, d, ch);
    case SafeReturn(s, d, outcome) => SafeReturnKeeps(st, s, d, outcome);
    case SafePublish(s) => PublishKeeps(st, s);
    case SafeCancelled(s) => ForgetKeeps(st, s);
    }
    InvIsShaped(Apply(st, step));
  }

  lemma RaiseKeeps(st: State, c: CallId, late: Option<bool>)
    requires Inv(st) && Shaped(st) && Enabled(st, HandlerRaise(c, late))
    ensures Inv(LeftBehind(Failed(st, c), c, st.calls[c], late))
  {
    hide LeasesOk, CallsOk, Exclusive, SafesBounded, SafesApart, LogOk, LogApart, LeasesOwned,
         FreshAreLeased, OutputsOk, Failed;
    FailKeeps(st, c);
    FailedFrame(st, c);
    CallIsOk(st, c);
  }

  lemma AbandonFrame(st: State, call: Call)
    ensures Abandon(st, call) == st.(leases := Abandon(st, call).leases)
  {}

  /** A safe state that begins touches nothing but generations and safe states. */
  lemma BeginSafeFrame(st: State, devices: set<Device>)
    ensures var next := BeginSafe(st, devices);
            && next.on == st.on && next.calls == st.calls && next.log == st.log && next.late == st.late
            && next.leases == st.leases && next.estop == st.estop && next.nextCall == st.nextCall
            && next.channels == st.channels && next.drivers == st.drivers
  {}

  /** A renewal touches nothing but the leases. */
  lemma RenewedFrame(st: State, id: LeaseId, connection: nat, ttl: Option<int>)
    ensures Renewed(st, id, connection, ttl) == st.(leases := Renewed(st, id, connection, ttl).leases)
  {
    hide Taken, Replace, Renewable;
  }

  /** The safe states in flight stay as they are. */
  lemma SafesStay(st: State, devices: set<Device>)
    requires st.nextSafe !in st.safes
    ensures forall s :: s in st.safes ==>
              s in BeginSafe(st, devices).safes && BeginSafe(st, devices).safes[s] == st.safes[s]
  {}

  lemma ReclaimFrame(st: State, q: Query)
    ensures var next := Reclaim(st, q);
            && next.on == st.on && next.calls == st.calls && next.log == st.log && next.late == st.late
            && next.channels == st.channels && next.drivers == st.drivers
  {
    hide BeginSafe, Taken, Left;
    BeginSafeFrame(st.(leases := Left(st.leases, q)), DevicesOf(Taken(st.leases, q)));
  }

  lemma FinishedFrame(st: State, c: CallId)
    requires RunningCall(st, c) && st.calls[c].device in st.generation
    ensures var next := Finished(st, c);
            && next.on == st.on && next.log == st.log && next.late == st.late
            && forall e :: e in next.calls ==>
                             e in st.calls && (next.calls[e] == st.calls[e] || next.calls[e].phase.Reverting?)
  {
    hide BeginSafe, Abandon, Left;
    AbandonFrame(st, st.calls[c]);
    BeginSafeFrame(Abandon(st, st.calls[c]), {st.calls[c].device});
  }

  lemma FailedFrame(st: State, c: CallId)
    requires c in st.calls
    ensures var next := Failed(st, c);
            next.on == st.on && next.generation == st.generation && next.safes == st.safes && next.log == st.log
            && next.channels == st.channels && next.drivers == st.drivers && next.late == st.late
  {
    hide Abandon;
    AbandonFrame(st, st.calls[c]);
  }

  lemma LateKeeps(st: State, c: CallId)
    requires Inv(st) && Shaped(st) && Enabled(st, LateWrite(c))
    ensures Inv(LateWritten(st, c))
  {
    hide LeasesOk, Exclusive, SafesBounded, SafesApart, LogOk, LogApart, LeasesOwned, FreshAreLeased;
    var next := LateWritten(st, c);
    forall e | e in st.calls ensures CallOk(st.calls[e], st.channels, st.generation, next.on, st.nextLease) {
      CallIsOk(st, e);
    }
  }

  lemma AbortKeeps(st: State, c: CallId)
    requires Inv(st) && c in st.calls && st.calls[c].phase.Reverting?
    ensures Inv(RevertAborted(st, c))
  {
    hide Inv;
    FailKeeps(st, c);
    ForgetKeeps(Failed(st, c), st.calls[c].phase.safe);
  }
}
