/**
 The steps that can leave an output on with nothing to account for it, each with the
 exact condition under which it does, and what follows for whole runs.
 */
module SafetyExposure {
  import opened Bytes
  import opened SafetyModel
  import opened SafetyInvariant
  import opened SafetyTheorems
  import opened SafetyCoverage

  /** The newest safe state of d accounts for everything that is on. */
  ghost predicate Guarded(st: State, d: Device)
    requires d in st.on && d in st.generation
  {
    || Reported(st.log, st.generation[d], d)
    || forall ch :: ch in st.on[d] ==> Watched(st.safes, st.generation[d], d, ch)
  }

  /** A lease on d that this call does not give back. */
  ghost predicate LeaseBeside(leases: seq<Lease>, call: Call)
  {
    exists l :: l in leases && l.device == call.device && call.lease != Some(l.id)
  }

  /** A lease on d that switching this output off does not release. */
  ghost predicate LeaseBeyond(leases: seq<Lease>, call: Call, now: int)
  {
    exists l :: l in leases && l.device == call.device
                && !Matches(OutputOf(call.device, call.action, now), l)
  }

  /** d does not depend on this safe state: it was overtaken, or d is off, held or being driven. */
  ghost predicate Spare(st: State, s: SafeId, d: Device)
    requires s in st.safes && d in st.on && d in st.generation
  {
    Newest(st.safes[s], st.generation[d], d) ==>
      st.on[d] == {} || Held(st.leases, st.calls, d) || HotOn(st.calls, d)
  }

  ghost predicate NotNeeded(st: State, s: SafeId)
    requires s in st.safes
  {
    forall d :: d in st.on && d in st.generation ==> Spare(st, s, d)
  }

  /** Something accounts for this channel of d, whether or not it is on. */
  ghost predicate Expected(st: State, d: Device, ch: Channel)
    requires d in st.generation
  {
    || Held(st.leases, st.calls, d) || HotOn(st.calls, d)
    || Reported(st.log, st.generation[d], d) || Watched(st.safes, st.generation[d], d, ch)
  }

  /**
   The guard of each step that can leave an output unaccounted for: a handler that raises
   after switching on, a thread that switches on after its call has ended, a switch-off that
   releases the leases of other outputs of its device, a safe state cancelled before it
   finished, and a driver that returns without an error while something is on.
   */
  ghost predicate Benign(st: State, step: Step)
    requires Shaped(st) && Enabled(st, step)
  {
    match step
    case HandlerRaise(c, _) =>
      var call := st.calls[c];
      Hot(call) ==> st.on[call.device] == {} || LeaseBeside(st.leases, call) || Guarded(st, call.device)
    case LateWrite(c) => st.late[c].value ==> Expected(st, st.late[c].device, st.late[c].channel)
    case HandlerReturn(c) =>
      var call := st.calls[c];
      call.kind.Deenergise? && !Superseded(st, c) ==>
        st.on[call.device] == {} || LeaseBeyond(st.leases, call, st.now) || Guarded(st, call.device)
    case RevertCancelled(c) => NotNeeded(st, st.calls[c].phase.safe)
    case SafeReturn(s, d, outcome) => Safed(outcome) ==> Spare(st, s, d)
    case SafeCancelled(s) => NotNeeded(st, s)
    case _ => true
  }

  // ---- one device at a time ------------------------------------------------------------

  /** The leases that count for d are those no unfinished call of d is still waiting on. */
  lemma SustainedBy(st: State, l: Lease, c: CallId)
    requires Loose(st) && l in st.leases && c in st.calls && st.calls[c].lease == Some(l.id)
    ensures l.device == st.calls[c].device && st.calls[c].phase.Running?
  {
    CallIsOk(st, c);
  }

  /** With no call left on d, any lease on d holds it. */
  lemma HeldByAny(st: State, leases: seq<Lease>, c: CallId)
    requires Loose(st) && c in st.calls
    requires forall l :: l in leases ==> l in st.leases && st.calls[c].lease != Some(l.id)
    ensures Held(leases, st.calls - {c}, st.calls[c].device)
            <==> exists l :: l in leases && l.device == st.calls[c].device
  {
    hide OutputsOk, LeasesOk, CallsOk, SafesBounded, SafesApart, LogOk, LogApart, CallOk, Owns, Loose;
    var d, rest := st.calls[c].device, st.calls - {c};
    forall l | l in leases && l.device == d ensures Sustains(rest, l) {
      forall e | e in rest && rest[e].lease == Some(l.id) ensures false {
        SustainedBy(st, l, e);
        AloneOnDevice(st, c, e);
        assert false;
      }
    }
  }

  lemma AloneOnDevice(st: State, c: CallId, e: CallId)
    requires Loose(st) && c in st.calls && e in st.calls && c != e
    ensures st.calls[c].device != st.calls[e].device
  {
    assert !SameOwner(st.calls[c], st.calls[e]);
  }

  lemma CoveredMeans(st: State, d: Device)
    requires d in st.on && d in st.generation
    ensures Covered(st, d)
            <==> st.on[d] == {} || Held(st.leases, st.calls, d) || HotOn(st.calls, d) || Guarded(st, d)
  {
    hide Held, HotOn, Reported, Watched;
  }

  // ---- a call that ends -------------------------------------------------------------------

  function Ended(st: State, c: CallId, leases: seq<Lease>): State
  {
    st.(leases := leases, calls := st.calls - {c})
  }

  /** A call ends and some leases of its own device go with it. */
  ghost predicate Shed(st: State, c: CallId, leases: seq<Lease>)
    requires c in st.calls
  {
    && (forall l :: l in leases ==> l in st.leases)
    && (forall l :: l in st.leases && l.device != st.calls[c].device ==> l in leases)
  }

  lemma EndedElsewhere(st: State, c: CallId, leases: seq<Lease>, d: Device)
    requires Loose(st) && c in st.calls && Shed(st, c, leases)
    requires d in st.channels && d != st.calls[c].device && Covered(st, d)
    ensures d in st.on && d in st.generation && Covered(Ended(st, c, leases), d)
  {
    hide OutputsOk, LeasesOk, CallsOk, SafesBounded, SafesApart, LogOk, LogApart, Exclusive, LeasesOwned,
         Covered;
    var next := Ended(st, c, leases);
    if Held(st.leases, st.calls, d) { HeldKept(st.leases, st.calls, leases, next.calls, d); }
    if HotOn(st.calls, d) {
      var e :| e in st.calls && st.calls[e].device == d && Hot(st.calls[e]);
      assert e in next.calls && next.calls[e] == st.calls[e];
    }
    NothingLostCovers(st, next, d);
  }

  lemma NotHotWithout(st: State, c: CallId)
    requires Loose(st) && c in st.calls
    ensures !HotOn(st.calls - {c}, st.calls[c].device)
  {
    hide Loose;
    forall e | e in st.calls - {c} ensures st.calls[e].device != st.calls[c].device {
      AloneOnDevice(st, c, e);
    }
  }

  /** What is left to account for a device when its call goes and gives its own lease back. */
  lemma EndIff(st: State, c: CallId, leases: seq<Lease>)
    requires Inv(st) && AllCovered(st) && c in st.calls && Shed(st, c, leases)
    requires forall l :: l in leases ==> st.calls[c].lease != Some(l.id)
    ensures var d := st.calls[c].device;
            && d in st.on && d in st.generation && Keyed(Ended(st, c, leases))
            && (AllCovered(Ended(st, c, leases)) <==>
                  st.on[d] == {} || (exists l :: l in leases && l.device == d) || Guarded(st, d))
  {
    hide OutputsOk, LeasesOk, CallsOk, CallOk, SafesBounded, SafesApart, LogOk, LogApart, Exclusive, LeasesOwned,
         Covered, Held, HotOn, Guarded, FreshAreLeased;
    var d, next := st.calls[c].device, Ended(st, c, leases);
    CallIsOk(st, c);
    assert d in st.channels by { InChannels(st, c); }
    HeldByAny(st, leases, c);
    NotHotWithout(st, c);
    CoveredMeans(next, d);
    assert Guarded(next, d) == Guarded(st, d) by { SameGuard(st, next, d); }
    forall e | e in st.channels && e != d ensures Covered(next, e) {
      EndedElsewhere(st, c, leases, e);
    }
  }

  lemma InChannels(st: State, c: CallId)
    requires Inv(st) && c in st.calls
    ensures Keyed(st)
    ensures var d := st.calls[c].device; d in st.channels && d in st.on && d in st.generation
    ensures st.calls[c].kind.Energise? <==> st.calls[c].lease.Some?
  {
    CallIsOk(st, c);
  }

  lemma SameGuard(st: State, next: State, d: Device)
    requires d in st.on && d in st.generation && d in next.on && d in next.generation
    requires st.on[d] == next.on[d] && st.generation[d] == next.generation[d]
    requires st.log == next.log && st.safes == next.safes
    ensures Guarded(st, d) == Guarded(next, d)
  {}

  lemma AbandonSheds(st: State, c: CallId)
    requires Loose(st) && c in st.calls
    ensures Shed(st, c, Abandon(st, st.calls[c]).leases)
    ensures forall l :: l in Abandon(st, st.calls[c]).leases
              <==> l in st.leases && st.calls[c].lease != Some(l.id)
    ensures Failed(st, c) == Ended(st, c, Abandon(st, st.calls[c]).leases)
  {
    CallIsOk(st, c);
    if st.calls[c].lease.Some? { PickSplits(st.leases, Named(st.calls[c].lease.value)); }
  }

  /** A call that fails leaves its device unaccounted for exactly when it had switched on alone. */
  lemma RaiseCovers(st: State, c: CallId)
    requires Inv(st) && AllCovered(st) && c in st.calls
    ensures st.calls[c].device in st.on && st.calls[c].device in st.generation && Keyed(Failed(st, c))
    ensures AllCovered(Failed(st, c)) <==>
            (Hot(st.calls[c]) ==> st.on[st.calls[c].device] == {} || LeaseBeside(st.leases, st.calls[c])
                                  || Guarded(st, st.calls[c].device))
  {
    hide OutputsOk, LeasesOk, CallsOk, CallOk, SafesBounded, SafesApart, LogOk, LogApart, Exclusive, LeasesOwned,
         Covered, Guarded, FreshAreLeased, Shed;
    AbandonSheds(st, c);
    EndIff(st, c, Abandon(st, st.calls[c]).leases);
    InChannels(st, c);
    if !Hot(st.calls[c]) { ColdAccounts(st, c); }
  }

  /** A call that has not switched anything on is nobody's reason to be covered. */
  lemma ColdAccounts(st: State, c: CallId)
    requires Loose(st) && c in st.calls && !Hot(st.calls[c])
    requires st.calls[c].device in st.on && st.calls[c].device in st.generation
    requires Covered(st, st.calls[c].device)
    ensures var d := st.calls[c].device;
            st.on[d] == {} || LeaseBeside(st.leases, st.calls[c]) || Guarded(st, d)
  {
    hide Guarded, Loose;
    var d := st.calls[c].device;
    CoveredMeans(st, d);
    if HotOn(st.calls, d) {
      var e :| e in st.calls && st.calls[e].device == d && Hot(st.calls[e]);
      AloneOnDevice(st, c, e);
      assert false;
    }
  }

  // ---- a call that returns ------------------------------------------------------------------

  lemma OffReturnIff(st: State, c: CallId)
    requires Inv(st) && Shaped(st) && AllCovered(st) && Enabled(st, HandlerReturn(c))
    requires st.calls[c].kind.Deenergise? && !Superseded(st, c)
    ensures AllCovered(Finished(st, c)) <==> Benign(st, HandlerReturn(c))
  {
    hide OutputsOk, LeasesOk, CallsOk, SafesBounded, SafesApart, LogOk, LogApart, Exclusive, LeasesOwned,
         Covered, Guarded, FreshAreLeased;
    var call := st.calls[c];
    var q := OutputOf(call.device, call.action, st.now);
    PickSplits(st.leases, q);
    CallIsOk(st, c);
    EndIff(st, c, Left(st.leases, q));
    assert Finished(st, c) == Ended(st, c, Left(st.leases, q));
  }

  lemma PlainReturnCovers(st: State, c: CallId)
    requires Inv(st) && Shaped(st) && AllCovered(st) && Enabled(st, HandlerReturn(c))
    requires !st.calls[c].kind.Deenergise? && !Superseded(st, c)
    ensures AllCovered(Finished(st, c))
  {
    hide OutputsOk, LeasesOk, CallsOk, SafesBounded, SafesApart, LogOk, LogApart, Exclusive, LeasesOwned,
         Covered, Guarded, Loose, Shaped;
    InChannels(st, c);
    var call, next := st.calls[c], Finished(st, c);
    assert next == Ended(st, c, st.leases);
    if call.kind.Energise? {
      assert Fresh(call, st.generation);
      OwnLeaseHolds(st, c);
      CoveredWhenHeld(next, call.device);
      forall d | d in st.channels && d != call.device ensures Covered(next, d) {
        EndedElsewhere(st, c, st.leases, d);
      }
    } else {
      EndIff(st, c, st.leases);
      ColdAccounts(st, c);
    }
  }

  /** A fresh energising call leaves its lease behind as the holder of its device. */
  lemma OwnLeaseHolds(st: State, c: CallId)
    requires Inv(st) && c in st.calls && Fresh(st.calls[c], st.generation)
    ensures Held(st.leases, st.calls - {c}, st.calls[c].device)
  {
    hide OutputsOk, CallsOk, SafesBounded, SafesApart, LogOk, LogApart, Exclusive, Loose, Fresh;
    assert Leased(st.calls[c], st.leases);
    var l :| l in st.leases && st.calls[c].lease == Some(l.id);
    SustainedBy(st, l, c);
    forall e | e in st.calls - {c} ensures st.calls[e].lease != Some(l.id) {
      LeaseApart(st, c, e);
    }
    assert Sustains(st.calls - {c}, l);
  }

  lemma LeaseApart(st: State, c: CallId, e: CallId)
    requires Loose(st) && c in st.calls && e in st.calls && c != e
    ensures st.calls[c].lease.Some? ==> st.calls[c].lease != st.calls[e].lease
  {
    assert !SameOwner(st.calls[c], st.calls[e]);
  }

  lemma CoveredWhenHeld(st: State, d: Device)
    requires d in st.on && d in st.generation && Held(st.leases, st.calls, d)
    ensures Covered(st, d)
  {}

  /** An overtaken call just before its device is driven safe: lease given back, waiting. */
  function Overtaken(st: State, c: CallId): State
    requires c in st.calls
  {
    Abandon(st, st.calls[c])
    .(calls := st.calls[c := st.calls[c].(phase := Reverting(st.nextSafe))])
  }

  lemma OvertakenIsRevert(st: State, c: CallId)
    requires RunningCall(st, c) && st.calls[c].device in st.generation && Superseded(st, c)
    ensures Finished(st, c) == BeginSafe(Overtaken(st, c), {st.calls[c].device})
  {
    hide Abandon;
    AbandonFrame(st, st.calls[c]);
  }

  lemma OvertakenElsewhere(st: State, c: CallId, d: Device)
    requires Inv(st) && c in st.calls && d in st.channels && d != st.calls[c].device && Covered(st, d)
    ensures Keyed(Overtaken(st, c)) && Covered(Overtaken(st, c), d)
  {
    hide OutputsOk, LeasesOk, CallsOk, SafesBounded, SafesApart, LogOk, LogApart, Exclusive, LeasesOwned,
         Covered, FreshAreLeased, Abandon;
    var next := Overtaken(st, c);
    AbandonSheds(st, c);
    if Held(st.leases, st.calls, d) {
      forall l | l in st.leases && l.device == d && Sustains(st.calls, l)
        ensures l in next.leases && Sustains(next.calls, l)
      {
        assert forall e :: e in next.calls && e != c ==> next.calls[e] == st.calls[e];
      }
      HeldKept(st.leases, st.calls, next.leases, next.calls, d);
    }
    if HotOn(st.calls, d) {
      var e :| e in st.calls && st.calls[e].device == d && Hot(st.calls[e]);
      assert e in next.calls && next.calls[e] == st.calls[e];
    }
    OvertakenFrame(st, c);
    NothingLostCovers(st, next, d);
  }

  lemma OvertakenFrame(st: State, c: CallId)
    requires c in st.calls
    ensures var next := Overtaken(st, c);
            && next.on == st.on && next.generation == st.generation && next.channels == st.channels
            && next.drivers == st.drivers && next.log == st.log
            && next.safes == st.safes && next.nextSafe == st.nextSafe
  {}

  /** An overtaken call drives its device safe again, whatever its handler had done. */
  lemma RevertCovers(st: State, c: CallId)
    requires Inv(st) && Shaped(st) && AllCovered(st) && Enabled(st, HandlerReturn(c)) && Superseded(st, c)
    ensures Keyed(Finished(st, c)) && AllCovered(Finished(st, c))
  {
    hide Covered, FreshAreLeased, Shaped, Overtaken, BeginSafe, Inv;
    NextSafeIsNew(st);
    InChannels(st, c);
    OvertakenIsRevert(st, c);
    OvertakenFrame(st, c);
    var call, mid := st.calls[c], Overtaken(st, c);
    Bumped(mid, {call.device});
    BeginSafeFrame(mid, {call.device});
    forall d | d in st.channels ensures Covered(Finished(st, c), d) {
      if d == call.device {
        DrivenIsCovered(mid, {d}, d);
      } else {
        OvertakenElsewhere(st, c, d);
        SparedIsKept(mid, {call.device}, d);
      }
    }
  }

  // ---- a safe state that is cancelled -------------------------------------------------------

  function Forgotten(st: State, s: SafeId): State
  {
    st.(safes := st.safes - {s})
  }

  /** An overtaken or unrelated safe state covers nothing; the newest one covers alone. */
  lemma ForgetIff(st: State, s: SafeId)
    requires Inv(st) && AllCovered(st) && s in st.safes
    ensures AllCovered(Forgotten(st, s)) <==> NotNeeded(st, s)
  {
    hide Covered, Inv, Newest, Held, HotOn;
    NextSafeIsNew(st);
    var next := Forgotten(st, s);
    forall d | d in st.channels ensures Covered(next, d) <==> Spare(st, s, d) {
      if Newest(st.safes[s], st.generation[d], d) {
        CoveredMeans(next, d);
        OnlyGuard(st, s, d, next);
      } else {
        OthersGuard(st, s, d);
      }
    }
  }

  /** Without its newest safe state in flight a device has neither verdict nor guard. */
  lemma OnlyGuard(st: State, s: SafeId, d: Device, next: State)
    requires Inv(st) && s in st.safes && d in st.on && d in st.generation
    requires Newest(st.safes[s], st.generation[d], d)
    requires next.on == st.on && next.generation == st.generation && next.log == st.log
    requires forall t :: t in next.safes && t != s ==> t in st.safes && next.safes[t] == st.safes[t]
    requires s in next.safes ==> d in next.safes[s].progress && Reassured(next.safes[s].progress[d])
    ensures Guarded(next, d) <==> st.on[d] == {}
  {
    hide OutputsOk, LeasesOk, CallsOk, SafesBounded, LogOk, Exclusive, LeasesOwned, FreshAreLeased;
    var g := st.generation[d];
    assert Unlisted(st.log, st.safes[s].generations);
    forall t | t in next.safes && t != s ensures !Newest(next.safes[t], g, d) {
      assert Apart(st.safes[s].generations, st.safes[t].generations);
    }
  }

  lemma OthersGuard(st: State, s: SafeId, d: Device)
    requires s in st.safes && d in st.on && d in st.generation && Covered(st, d)
    requires !Newest(st.safes[s], st.generation[d], d)
    ensures Covered(Forgotten(st, s), d)
  {
    hide Held, HotOn;
    var next := Forgotten(st, s);
    forall ch | Watched(st.safes, st.generation[d], d, ch) ensures Watched(next.safes, st.generation[d], d, ch) {
      var t :| t in st.safes && Newest(st.safes[t], st.generation[d], d)
               && d in st.safes[t].progress && Guards(st.safes[t].progress[d], ch);
      assert t in next.safes && next.safes[t] == st.safes[t];
    }
    NothingLostCovers(st, next, d);
  }

  // ---- a driver that is back, and a thread that comes late ------------------------------------

  /** Only a driver that vouches for its device takes its guard away, and only if it is the newest. */
  lemma DriverReturnIff(st: State, s: SafeId, d: Device, o: Outcome)
    requires Inv(st) && Shaped(st) && AllCovered(st) && Enabled(st, SafeReturn(s, d, o))
    ensures Exact(st, SafeReturn(s, d, o))
  {
    hide Covered, Inv, Newest, Held, HotOn, Shaped;
    NextSafeIsNew(st);
    var next := SafeReturned(st, s, d, o);
    SafeDevice(st, s, d);
    forall e | e in st.channels ensures Covered(next, e) <==> (e == d && Safed(o) ==> Spare(st, s, d)) {
      if e == d && Safed(o) && Newest(st.safes[s], st.generation[d], d) {
        CoveredMeans(next, d);
        OnlyGuard(st, s, d, next);
      } else {
        ReturnSpares(st, s, d, o, e);
      }
    }
  }

  lemma SafeDevice(st: State, s: SafeId, d: Device)
    requires Keyed(st) && Shaped(st) && InFlight(st, s, d)
    ensures d in st.channels && d in st.on
  {}

  /** A late write is harmless if and only if it switches off, or its channel is accounted for anyway. */
  lemma LateIff(st: State, c: CallId)
    requires Inv(st) && Shaped(st) && AllCovered(st) && Enabled(st, LateWrite(c))
    ensures Exact(st, LateWrite(c))
  {
    hide Held, HotOn, Reported, Watched, Inv;
    NextSafeIsNew(st);
    var next, w := LateWritten(st, c), st.late[c];
    assert w.device in st.channels;
    forall e | e in st.channels
      ensures Covered(next, e) <==> (e == w.device && w.value ==> Expected(st, e, w.channel))
    {
      assert Covered(st, e);
      assert e == w.device && w.value ==> w.channel in next.on[e];
    }
  }

  /** A reverting call owns no lease and drives nothing. */
  lemma RevertingHoldsNothing(st: State, c: CallId, d: Device)
    requires Inv(st) && c in st.calls && st.calls[c].phase.Reverting?
    ensures var next := Failed(st, c);
            && Held(next.leases, next.calls, d) == Held(st.leases, st.calls, d)
            && HotOn(next.calls, d) == HotOn(st.calls, d)
  {
    hide OutputsOk, LeasesOk, CallsOk, SafesBounded, SafesApart, LogOk, LogApart, Exclusive, LeasesOwned,
         FreshAreLeased, Abandon;
    var next := Failed(st, c);
    AbandonSheds(st, c);
    CallIsOk(st, c);
    assert forall l :: l in next.leases <==> l in st.leases;
    forall l | l in st.leases ensures Sustains(next.calls, l) == Sustains(st.calls, l) {
      assert forall e :: e in st.calls && st.calls[e].lease == Some(l.id) ==>
                           e in next.calls && next.calls[e] == st.calls[e];
    }
    if HotOn(st.calls, d) {
      var e :| e in st.calls && st.calls[e].device == d && Hot(st.calls[e]);
      assert e in next.calls && next.calls[e] == st.calls[e];
    }
  }

  lemma AbortIff(st: State, c: CallId)
    requires Inv(st) && Shaped(st) && AllCovered(st) && Enabled(st, RevertCancelled(c))
    ensures Exact(st, RevertCancelled(c))
  {
    hide Covered, Inv, Held, HotOn, Newest, Guarded, Loose, Abandon;
    RaiseCovers(st, c);
    FailKeeps(st, c);
    var mid, s := Failed(st, c), st.calls[c].phase.safe;
    FailedFrame(st, c);
    ForgetIff(mid, s);
    assert RevertAborted(st, c) == Forgotten(mid, s);
    forall d ensures Held(mid.leases, mid.calls, d) == Held(st.leases, st.calls, d)
    ensures HotOn(mid.calls, d) == HotOn(st.calls, d)
    {
      RevertingHoldsNothing(st, c, d);
    }
  }

  lemma QuietCovers(st: State, elapsed: nat)
    requires Keyed(st) && AllCovered(st)
    ensures AllCovered(st.(estop := false)) && AllCovered(st.(now := st.now + elapsed))
  {
    hide Held, HotOn, Reported, Watched;
    forall d | d in st.channels
      ensures Covered(st.(estop := false), d) && Covered(st.(now := st.now + elapsed), d)
    {
      assert Covered(st, d);
    }
  }

  lemma ReturnIff(st: State, c: CallId)
    requires Inv(st) && Shaped(st) && AllCovered(st) && Enabled(st, HandlerReturn(c))
    ensures Exact(st, HandlerReturn(c))
  {
    hide Inv, AllCovered, Guarded, LeaseBeyond, Finished, Keyed;
    StepKeepsKeys(st, HandlerReturn(c));
    if Superseded(st, c) {
      RevertCovers(st, c);
    } else if st.calls[c].kind.Deenergise? {
      OffReturnIff(st, c);
    } else {
      PlainReturnCovers(st, c);
    }
  }

  /** From this accounted state the step leads to an accounted one exactly if it meets its guard. */
  ghost predicate Exact(st: State, step: Step)
    requires Shaped(st) && Enabled(st, step)
  {
    Keyed(Apply(st, step)) && (AllCovered(Apply(st, step)) <==> Benign(st, step))
  }

  predicate IsCallStep(step: Step)
  {
    || step.HandlerWrite? || step.HandlerReturn? || step.HandlerRaise? || step.LateWrite?
    || step.RevertDone? || step.RevertCancelled?
  }

  lemma CallStepCovers(st: State, step: Step)
    requires Inv(st) && Shaped(st) && AllCovered(st) && Enabled(st, step) && IsCallStep(step)
    ensures Exact(st, step)
  {
    hide Inv, Shaped, AllCovered, Keyed, Enabled, Exact;
    match step {
      case HandlerWrite(c, value) => WriteIff(st, c, value);
      case HandlerReturn(c) => ReturnIff(st, c);
      case RevertCancelled(c) => AbortIff(st, c);
      case HandlerRaise(c, late) => RaiseIff(st, c, late);
      case LateWrite(c) => LateIff(st, c);
      case RevertDone(c) => DoneIff(st, c);
    }
  }

  lemma WriteIff(st: State, c: CallId, value: bool)
    requires Inv(st) && Shaped(st) && AllCovered(st) && Enabled(st, HandlerWrite(c, value))
    ensures Exact(st, HandlerWrite(c, value))
  {
    hide Inv, AllCovered, Written, Keyed;
    StepKeepsKeys(st, HandlerWrite(c, value));
    WriteCovers(st, c, value);
  }

  lemma DoneIff(st: State, c: CallId)
    requires Inv(st) && Shaped(st) && AllCovered(st) && Enabled(st, RevertDone(c))
    ensures Exact(st, RevertDone(c))
  {
    hide Inv, AllCovered, Failed, Guarded, LeaseBeside, Keyed;
    RaiseCovers(st, c);
  }

  /** Nobody sees a thread before it writes. */
  lemma LateUnseen(st: State, late: map<CallId, Straggler>)
    requires Keyed(st)
    ensures AllCovered(st.(late := late)) <==> AllCovered(st)
  {
    hide Held, HotOn, Reported, Watched;
    var next := st.(late := late);
    forall d | d in st.channels ensures Covered(next, d) <==> Covered(st, d) {}
  }

  lemma RaiseIff(st: State, c: CallId, late: Option<bool>)
    requires Inv(st) && Shaped(st) && AllCovered(st) && Enabled(st, HandlerRaise(c, late))
    ensures Exact(st, HandlerRaise(c, late))
  {
    hide Inv, AllCovered, Failed, Guarded, LeaseBeside;
    RaiseCovers(st, c);
    LateUnseen(Failed(st, c), Apply(st, HandlerRaise(c, late)).late);
  }

  lemma ReclaimIff(st: State, step: Step)
    requires Inv(st) && Shaped(st) && AllCovered(st) && (step.Sweep? || step.Disconnect? || step.Release?)
    ensures Enabled(st, step) && Exact(st, step)
  {
    hide Inv, AllCovered, Reclaim, Keyed;
    ReclaimCovers(st, if step.Sweep? then ExpiredAt(st.now)
                      else if step.Disconnect? then Connection(step.connection) else Named(step.lease));
  }

  lemma GrantIff(st: State, step: Step)
    requires Inv(st) && Shaped(st) && AllCovered(st) && Enabled(st, step) && (step.Begin? || step.Renew?)
    ensures Exact(st, step)
  {
    hide Inv, AllCovered, Begun, Renewed, Keyed;
    StepKeepsKeys(st, step);
    if step.Begin? {
      BeginCovers(st, step.request);
    } else {
      RenewCovers(st, step.lease, step.connection, step.ttl);
    }
  }

  lemma QuietIff(st: State, step: Step)
    requires Inv(st) && Shaped(st) && AllCovered(st) && (step.Acknowledge? || step.Tick? || step.Estop?)
    ensures Enabled(st, step) && Exact(st, step)
  {
    hide Inv, AllCovered, BeginSafe;
    NextSafeIsNew(st);
    if step.Estop? {
      EstopCovers(st);
    } else {
      QuietCovers(st, if step.Tick? then step.elapsed else 0);
    }
  }

  lemma SafeIff(st: State, step: Step)
    requires Inv(st) && Shaped(st) && AllCovered(st) && Enabled(st, step)
    requires step.SafeWrite? || step.SafeReturn? || step.SafePublish? || step.SafeCancelled?
    ensures Exact(st, step)
  {
    hide Inv, AllCovered, SafeWritten, SafeReturned, Verdicts, NotNeeded, Spare, Keyed, Shaped;
    StepKeepsKeys(st, step);
    NextSafeIsNew(st);
    if step.SafeWrite? {
      SafeDevice(st, step.safe, step.device);
      SafeWriteCovers(st, step.safe, step.device, step.channel);
    } else if step.SafeReturn? {
      DriverReturnIff(st, step.safe, step.device, step.outcome);
    } else if step.SafePublish? {
      PublishCovers(st, step.safe);
    } else {
      ForgetIff(st, step.safe);
    }
  }

  lemma OtherStepCovers(st: State, step: Step)
    requires Inv(st) && Shaped(st) && AllCovered(st) && Enabled(st, step) && !IsCallStep(step)
    ensures Exact(st, step)
  {
    hide Inv, Shaped, AllCovered, Keyed, Enabled, Exact;
    if step.Begin? || step.Renew? {
      GrantIff(st, step);
    } else if step.Sweep? || step.Disconnect? || step.Release? {
      ReclaimIff(st, step);
    } else if step.Acknowledge? || step.Tick? || step.Estop? {
      QuietIff(st, step);
    } else {
      SafeIff(st, step);
    }
  }

  /** From a state where every output is accounted for, a step keeps it so exactly when it is benign. */
  lemma {:induction false} StepCovers(st: State, step: Step)
    requires Inv(st) && Shaped(st) && AllCovered(st) && Enabled(st, step)
    ensures Keyed(Apply(st, step))
    ensures AllCovered(Apply(st, step)) <==> Benign(st, step)
  {
    hide Inv, Shaped, AllCovered, Keyed, Enabled, Apply, Benign;
    if IsCallStep(step) {
      CallStepCovers(st, step);
    } else {
      OtherStepCovers(st, step);
    }
  }

  lemma StepKeepsKeys(st: State, step: Step)
    requires Inv(st) && Shaped(st) && Enabled(st, step)
    ensures Keyed(Apply(st, step))
  {
    hide Apply, Enabled, Shaped;
    StepKeeps(st, step);
  }

  // ---- whole runs -----------------------------------------------------------------------------

  /** Whatever is on when the daemon starts, its start-up safe state accounts for it. */
  lemma InitialCovered(st: State)
    requires Initial(st)
    ensures Keyed(st) && AllCovered(st)
  {
    hide Covered, BeginSafe;
    var found := Found(st.drivers, st.channels, st.on, st.now);
    Bumped(found, st.channels.Keys);
    forall d | d in st.channels ensures Covered(st, d) {
      DrivenIsCovered(found, st.channels.Keys, d);
    }
  }

  ghost predicate Accounted(st: State)
  {
    Keyed(st) && AllCovered(st)
  }

  ghost predicate Harmless(st: State, step: Step)
  {
    Shaped(st) && Enabled(st, step) && Benign(st, step)
  }

  /** A run keeps every output accounted for exactly as long as its steps are benign. */
  lemma {:induction false} AccountedIffBenign(states: seq<State>, steps: seq<Step>, n: nat)
    requires Run(states, steps) && n < |states|
    ensures (forall i :: 0 <= i <= n ==> Accounted(states[i]))
            <==> (forall i :: 0 <= i < n ==> Harmless(states[i], steps[i]))
  {
    hide Inv, Shaped, Enabled, Apply, Initial, Benign, AllCovered, Keyed;
    if n == 0 {
      InitialCovered(states[0]);
    } else {
      AccountedIffBenign(states, steps, n - 1);
      RunInv(states, steps, n - 1);
      assert Leads(states[n - 1], steps[n - 1], states[n]);
      if Accounted(states[n - 1]) { StepCovers(states[n - 1], steps[n - 1]); }
    }
  }

  /** With ESTOP latched and nothing in flight, every device is off or on record as not safed. */
  lemma QuiescentIsSafeOrReported(st: State, d: Device)
    requires Inv(st) && AllCovered(st) && st.estop && st.calls == map[] && st.safes == map[]
    requires d in st.channels
    ensures d in st.on && d in st.generation
    ensures st.on[d] == {} || Verdict(d, st.generation[d], false) in st.log
  {
    NextSafeIsNew(st);
    assert Covered(st, d);
    assert st.leases == [];
  }
}
