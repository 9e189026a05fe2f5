/**
 The safe-state protocol of fielddeck/daemon/dispatcher.py and service.py as a step
 system. One step is one stretch of code between two awaits; calls, the lease sweep,
 disconnects, an emergency stop and the drivers' `safe_state` coroutines interleave.
 */
module SafetyModel {
  import opened Bytes

  type Device = nat
  type Channel = nat
  type CallId = nat
  type SafeId = nat
  type LeaseId = nat

  // ---- leases -----------------------------------------------------------------

  datatype Lease = Lease(
    id: LeaseId, device: Device, action: nat, connection: nat, expires: int, ttl: int)
  {
    predicate Active(now: int)
    {
      now < expires
    }
  }

  /** The ways the daemon picks leases out of its table. */
  datatype Query =
    | ExpiredAt(now: int)
    | Connection(connection: nat)
    | Named(id: LeaseId)
    | OutputOf(device: Device, action: nat, now: int)

  predicate Matches(q: Query, l: Lease)
  {
    match q
    case ExpiredAt(now) => !l.Active(now)
    case Connection(c) => l.connection == c
    case Named(id) => l.id == id
    case OutputOf(d, a, now) => l.device == d && l.action == a && l.Active(now)
  }

  function Taken(leases: seq<Lease>, q: Query): seq<Lease>
  {
    if leases == [] then [] else
      var last := leases[|leases| - 1];
      Taken(leases[..|leases| - 1], q) + (if Matches(q, last) then [last] else [])
  }

  function Left(leases: seq<Lease>, q: Query): seq<Lease>
  {
    if leases == [] then [] else
      var last := leases[|leases| - 1];
      Left(leases[..|leases| - 1], q) + (if Matches(q, last) then [] else [last])
  }

  lemma TakenSnoc(leases: seq<Lease>, l: Lease, q: Query)
    ensures Taken(leases + [l], q) == Taken(leases, q) + (if Matches(q, l) then [l] else [])
    ensures Left(leases + [l], q) == Left(leases, q) + (if Matches(q, l) then [] else [l])
  {
    assert (leases + [l])[..|leases|] == leases;
  }

  /** Picking splits the table: no lease is lost and none is invented. */
  lemma {:induction false} PickSplits(leases: seq<Lease>, q: Query)
    ensures forall l :: l in Taken(leases, q) <==> l in leases && Matches(q, l)
    ensures forall l :: l in Left(leases, q) <==> l in leases && !Matches(q, l)
  {
    if leases != [] {
      LastSplit(leases);
      PickSplits(leases[..|leases| - 1], q);
    }
  }

  function DevicesOf(leases: seq<Lease>): set<Device>
  {
    set l | l in leases :: l.device
  }

  /** A renewal restarts the interval and may shorten it, never lengthen it. */
  function Renewal(l: Lease, requested: int, now: int): Lease
  {
    var ttl := if requested < l.ttl then requested else l.ttl;
    l.(expires := now + ttl, ttl := ttl)
  }

  function Replace(leases: seq<Lease>, renewed: Lease): (r: seq<Lease>)
    ensures |r| == |leases|
  {
    seq(|leases|, i requires 0 <= i < |leases| =>
      if leases[i].id == renewed.id then renewed else leases[i])
  }

  // ---- calls and safe states ---------------------------------------------------

  /** What the handler of a state-changing call does to its device. */
  datatype Kind = Energise(channel: Channel) | Deenergise(channel: Channel) | Configure

  /** `wrote`: an Energise handler has turned its channel on, a Deenergise handler off. */
  datatype Phase = Running(wrote: bool) | Reverting(safe: SafeId)

  datatype Call = Call(
    device: Device, action: nat, kind: Kind, lease: Option<LeaseId>, generation: nat, phase: Phase)

  /** How a driver's `safe_state` ended; `error` is whether what it returned holds an error. */
  datatype Outcome = Raised | TimedOut | Answered(error: bool)

  /** The dispatcher's own verdict: safe unless the driver raised, timed out or said otherwise. */
  predicate Safed(o: Outcome)
  {
    o.Answered? && !o.error
  }

  /** How far a driver's `safe_state` has come on one device. */
  datatype Progress = Working(cleared: set<Channel>) | Returned(outcome: Outcome)

  predicate Reassured(p: Progress)
  {
    p.Returned? && Safed(p.outcome)
  }

  /** One `apply_safe_state` in flight, with the generation it gave each of its devices. */
  datatype SafeState = SafeState(
    generations: map<Device, nat>, progress: map<Device, Progress>)

  /**
   One SAFE_STATE_APPLIED line of the timeline. The line itself names the device and
   whether it is safe; `generation` is this model's note of which safe state it is about.
   */
  datatype Verdict = Verdict(device: Device, generation: nat, safe: bool)

  /** A worker thread that outlived its call, and the one write it still has to make. */
  datatype Straggler = Straggler(device: Device, channel: Channel, value: bool)

  datatype State = State(
    drivers: seq<Device>,
    channels: map<Device, set<Channel>>,
    estop: bool,
    now: int,
    leases: seq<Lease>,
    nextLease: LeaseId,
    generation: map<Device, nat>,
    on: map<Device, set<Channel>>,
    calls: map<CallId, Call>,
    nextCall: CallId,
    safes: map<SafeId, SafeState>,
    nextSafe: SafeId,
    log: seq<Verdict>,
    late: map<CallId, Straggler>)

  /** `granted` stands for the grants and limits; `ttl` is the lease the client asked for. */
  datatype Request = Request(
    device: Device, action: nat, kind: Kind, connection: nat, ttl: int,
    granted: bool, allowedDuringEstop: bool)

  datatype Step =
    | Begin(request: Request)
    | HandlerWrite(call: CallId, value: bool)
    | HandlerReturn(call: CallId)
    | HandlerRaise(call: CallId, late: Option<bool>)
    | LateWrite(call: CallId)
    | RevertDone(call: CallId)
    | RevertCancelled(call: CallId)
    | Sweep
    | Disconnect(connection: nat)
    | Release(lease: LeaseId)
    | Renew(lease: LeaseId, connection: nat, ttl: Option<int>)
    | Estop
    | Acknowledge
    | Tick(elapsed: nat)
    | SafeWrite(safe: SafeId, device: Device, channel: Channel)
    | SafeReturn(safe: SafeId, device: Device, outcome: Outcome)
    | SafePublish(safe: SafeId)
    | SafeCancelled(safe: SafeId)

  predicate Busy(st: State, d: Device)
  {
    exists c :: c in st.calls && st.calls[c].device == d
  }

  /** Authorization, limits, the lease's own check and the device lock. */
  predicate Accepted(st: State, r: Request)
  {
    && (r.kind.Deenergise? || r.granted)
    && (st.estop ==> r.kind.Deenergise? && r.allowedDuringEstop)
    && (r.kind.Energise? ==> r.ttl > 0)
    && !Busy(st, r.device)
  }

  predicate RunningCall(st: State, c: CallId)
  {
    c in st.calls && st.calls[c].phase.Running?
  }

  predicate InFlight(st: State, s: SafeId, d: Device)
  {
    s in st.safes && d in st.safes[s].progress && st.safes[s].progress[d].Working?
  }

  /** Only an energising handler can turn its channel on. */
  predicate MayWrite(kind: Kind, value: bool)
  {
    kind.Energise? || (kind.Deenergise? && !value)
  }

  /** What the environment may do next. */
  predicate Enabled(st: State, step: Step)
  {
    match step
    case Begin(r) =>
      && r.device in st.channels
      && (r.kind.Configure? || r.kind.channel in st.channels[r.device])
    case HandlerWrite(c, value) => RunningCall(st, c) && MayWrite(st.calls[c].kind, value)
    case HandlerReturn(c) =>
      RunningCall(st, c) && (st.calls[c].kind.Deenergise? ==> st.calls[c].phase.wrote)
    case HandlerRaise(c, late) =>
      RunningCall(st, c) && (late.Some? ==> MayWrite(st.calls[c].kind, late.value))
    case LateWrite(c) => c in st.late
    case RevertDone(c) =>
      c in st.calls && st.calls[c].phase.Reverting? && st.calls[c].phase.safe !in st.safes
    case RevertCancelled(c) =>
      c in st.calls && st.calls[c].phase.Reverting? && st.calls[c].phase.safe in st.safes
    case SafeWrite(s, d, ch) => InFlight(st, s, d)
    case SafeReturn(s, d, outcome) => InFlight(st, s, d)
    case SafePublish(s) =>
      s in st.safes && forall d :: d in st.safes[s].progress ==> st.safes[s].progress[d].Returned?
    case SafeCancelled(s) =>
      s in st.safes && forall c :: c in st.calls ==> st.calls[c].phase != Reverting(s)
    case _ => true
  }

  /** The first stretch of `apply_safe_state`: every device gets its next generation. */
  function BeginSafe(st: State, devices: set<Device>): State
  {
    var ds := devices * st.channels.Keys * st.generation.Keys;
    if ds == {} then st else
      var generations := map d | d in ds :: st.generation[d] + 1;
      st.(generation := st.generation + generations,
          safes := st.safes[st.nextSafe :=
                     SafeState(generations, map d | d in ds :: Working({}))],
          nextSafe := st.nextSafe + 1)
  }

  /** Leases taken out of the table and, if there were any, their devices driven safe. */
  function Reclaim(st: State, q: Query): State
  {
    var taken := Taken(st.leases, q);
    if taken == [] then st
    else BeginSafe(st.(leases := Left(st.leases, q)), DevicesOf(taken))
  }

  /** `_abandon_lease` */
  function Abandon(st: State, c: Call): State
  {
    match c.lease
    case None => st
    case Some(id) => st.(leases := Left(st.leases, Named(id)))
  }

  function DropCall(st: State, c: CallId): State
  {
    st.(calls := st.calls - {c})
  }

  /** The verdicts of a finished safe state, in the order of the registry. */
  function Verdicts(drivers: seq<Device>, safe: SafeState): seq<Verdict>
    requires safe.generations.Keys == safe.progress.Keys
  {
    if drivers == [] then [] else
      var d := drivers[|drivers| - 1];
      Verdicts(drivers[..|drivers| - 1], safe)
      + (if d in safe.progress
         then [Verdict(d, safe.generations[d], Reassured(safe.progress[d]))] else [])
  }

  /** A call whose device was driven safe while it ran. */
  predicate Superseded(st: State, c: CallId)
    requires c in st.calls && st.calls[c].device in st.generation
  {
    st.generation[st.calls[c].device] != st.calls[c].generation
  }

  function Begun(st: State, r: Request): State
    requires r.device in st.generation
  {
    if !Accepted(st, r) then st else
      var leased := r.kind.Energise?;
      var lease := Lease(st.nextLease, r.device, r.action, r.connection, st.now + r.ttl, r.ttl);
      var call := Call(r.device, r.action, r.kind, if leased then Some(st.nextLease) else None,
                       st.generation[r.device], Running(false));
      st.(leases := if leased then st.leases + [lease] else st.leases,
          nextLease := if leased then st.nextLease + 1 else st.nextLease,
          calls := st.calls[st.nextCall := call],
          nextCall := st.nextCall + 1)
  }

  function Written(st: State, c: CallId, value: bool): State
    requires RunningCall(st, c) && !st.calls[c].kind.Configure? && st.calls[c].device in st.on
  {
    var call := st.calls[c];
    var d, ch := call.device, call.kind.channel;
    st.(on := st.on[d := if value then st.on[d] + {ch} else st.on[d] - {ch}],
        calls := st.calls[c := call.(phase := Running(call.phase.wrote || value == call.kind.Energise?))])
  }

  /** `_reject_if_superseded`, and `_release_leases` when the call stands. */
  function Finished(st: State, c: CallId): State
    requires RunningCall(st, c) && st.calls[c].device in st.generation
  {
    var call := st.calls[c];
    if Superseded(st, c) then
      BeginSafe(Abandon(st, call), {call.device})
      .(calls := st.calls[c := call.(phase := Reverting(st.nextSafe))])
    else if call.kind.Deenergise? then
      DropCall(st.(leases := Left(st.leases, OutputOf(call.device, call.action, st.now))), c)
    else
      DropCall(st, c)
  }

  /** A call that returns an error gives its lease back and goes. */
  function Failed(st: State, c: CallId): State
    requires c in st.calls
  {
    DropCall(Abandon(st, st.calls[c]), c)
  }

  /** The call is over, but a thread of its handler may still be on its way to the device. */
  function LeftBehind(st: State, c: CallId, call: Call, late: Option<bool>): State
    requires late.Some? ==> MayWrite(call.kind, late.value)
  {
    if late.None? then st
    else st.(late := st.late[c := Straggler(call.device, call.kind.channel, late.value)])
  }

  /** The write of a thread whose call has ended. */
  function LateWritten(st: State, c: CallId): State
    requires c in st.late && st.late[c].device in st.on
  {
    var w := st.late[c];
    var now := if w.value then st.on[w.device] + {w.channel} else st.on[w.device] - {w.channel};
    st.(on := st.on[w.device := now], late := st.late - {c})
  }

  /** A cancelled revert takes the safe state it was waiting for with it. */
  function RevertAborted(st: State, c: CallId): State
    requires c in st.calls && st.calls[c].phase.Reverting?
  {
    Failed(st, c).(safes := st.safes - {st.calls[c].phase.safe})
  }

  /** `LeaseManager.renew`: only the holder, only while the lease lives. */
  predicate Renewable(st: State, l: Lease, connection: nat, ttl: Option<int>)
  {
    l.connection == connection && l.Active(st.now) && (ttl.Some? ==> ttl.value > 0)
  }

  function Renewed(st: State, id: LeaseId, connection: nat, ttl: Option<int>): State
  {
    var found := Taken(st.leases, Named(id));
    if found == [] || !Renewable(st, found[0], connection, ttl) then st
    else
      var l := found[0];
      st.(leases := Replace(st.leases, Renewal(l, if ttl.Some? then ttl.value else l.ttl, st.now)))
  }

  function SafeWritten(st: State, s: SafeId, d: Device, ch: Channel): State
    requires InFlight(st, s, d) && d in st.on
  {
    var safe := st.safes[s];
    var cleared := safe.progress[d].cleared + {ch};
    st.(on := st.on[d := st.on[d] - {ch}],
        safes := st.safes[s := safe.(progress := safe.progress[d := Working(cleared)])])
  }

  function SafeReturned(st: State, s: SafeId, d: Device, outcome: Outcome): State
    requires InFlight(st, s, d)
  {
    var safe := st.safes[s];
    st.(safes := st.safes[s := safe.(progress := safe.progress[d := Returned(outcome)])])
  }

  /** The devices of every map agree, so that each step's look-ups are defined. */
  ghost predicate Shaped(st: State)
  {
    && st.generation.Keys == st.channels.Keys && st.on.Keys == st.channels.Keys
    && (forall d :: d in st.drivers <==> d in st.channels)
    && (forall c :: c in st.calls ==> st.calls[c].device in st.channels)
    && (forall s :: s in st.safes ==>
          st.safes[s].generations.Keys == st.safes[s].progress.Keys <= st.channels.Keys)
    && (forall c :: c in st.late ==> st.late[c].device in st.channels)
  }

  /** One step. */
  ghost function Apply(st: State, step: Step): State
    requires Shaped(st) && Enabled(st, step)
  {
    match step
    case Begin(r) => Begun(st, r)
    case HandlerWrite(c, value) => Written(st, c, value)
    case HandlerReturn(c) => Finished(st, c)
    case HandlerRaise(c, late) => LeftBehind(Failed(st, c), c, st.calls[c], late)
    case LateWrite(c) => LateWritten(st, c)
    case RevertDone(c) => Failed(st, c)
    case RevertCancelled(c) => RevertAborted(st, c)
    case Sweep => Reclaim(st, ExpiredAt(st.now))
    case Disconnect(n) => Reclaim(st, Connection(n))
    case Release(id) => Reclaim(st, Named(id))
    case Renew(id, n, ttl) => Renewed(st, id, n, ttl)
    case Estop => BeginSafe(st.(estop := true, leases := []), st.channels.Keys)
    case Acknowledge => st.(estop := false)
    case Tick(t) => st.(now := st.now + t)
    case SafeWrite(s, d, ch) => SafeWritten(st, s, d, ch)
    case SafeReturn(s, d, outcome) => SafeReturned(st, s, d, outcome)
    case SafePublish(s) =>
      st.(safes := st.safes - {s}, log := st.log + Verdicts(st.drivers, st.safes[s]))
    case SafeCancelled(s) => st.(safes := st.safes - {s})
  }

  /** Whether this step is a call returning ok to its client. */
  ghost predicate ReturnsOk(st: State, step: Step)
    requires Shaped(st)
  {
    step.HandlerReturn? && Enabled(st, step) && !Superseded(st, step.call)
  }

  /** The bench as the daemon finds it: nothing is known of any device, and anything may be on. */
  function Found(
    drivers: seq<Device>, channels: map<Device, set<Channel>>, on: map<Device, set<Channel>>, now: int): State
  {
    State(drivers, channels, false, now, [], 0, map d | d in channels :: 0, on, map[], 0, map[], 0, [], map[])
  }

  /** The daemon after the first stretch of its start-up safe state, before any driver has done anything. */
  ghost predicate Initial(st: State)
  {
    && (forall d :: d in st.drivers <==> d in st.channels)
    && st.on.Keys == st.channels.Keys
    && (forall d :: d in st.channels ==> st.on[d] <= st.channels[d])
    && st == BeginSafe(Found(st.drivers, st.channels, st.on, st.now), st.channels.Keys)
  }
}
