/**
 When an output that is on is accounted for: a lease holds it, a handler that turned it
 on is still running, the newest safe state of its device has not cleared it yet, or
 that safe state is on record as failed. Here are the steps of the model that always
 keep this; the five kinds that may break it, each with its guard, are in SafetyExposure.
 */
module SafetyCoverage {
  import opened Bytes
  import opened SafetyModel
  import opened SafetyInvariant
  import opened SafetyTheorems

  /** A running call whose handler has turned its output on. */
  predicate Hot(call: Call)
  {
    call.kind.Energise? && call.phase == Running(true)
  }

  /** No call that has not turned anything on yet is the only reason for this lease. */
  ghost predicate Sustains(calls: map<CallId, Call>, l: Lease)
  {
    forall c :: c in calls && calls[c].lease == Some(l.id) ==> Hot(calls[c])
  }

  ghost predicate Held(leases: seq<Lease>, calls: map<CallId, Call>, d: Device)
  {
    exists l :: l in leases && l.device == d && Sustains(calls, l)
  }

  ghost predicate HotOn(calls: map<CallId, Call>, d: Device)
  {
    exists c :: c in calls && calls[c].device == d && Hot(calls[c])
  }

  /** The driver has not turned this channel off yet, or has failed. */
  predicate Guards(p: Progress, ch: Channel)
  {
    match p
    case Working(cleared) => ch !in cleared
    case Returned(outcome) => !Safed(outcome)
  }

  predicate Newest(safe: SafeState, g: nat, d: Device)
  {
    d in safe.generations && d in safe.progress && safe.generations[d] == g
  }

  ghost predicate Watched(safes: map<SafeId, SafeState>, g: nat, d: Device, ch: Channel)
  {
    exists s :: s in safes && Newest(safes[s], g, d) && Guards(safes[s].progress[d], ch)
  }

  /** The newest safe state of the device is on the timeline as failed. */
  predicate Reported(log: seq<Verdict>, g: nat, d: Device)
  {
    Verdict(d, g, false) in log
  }

  ghost predicate Covered(st: State, d: Device)
    requires d in st.on && d in st.generation
  {
    forall ch :: ch in st.on[d] ==>
      || Held(st.leases, st.calls, d)
      || HotOn(st.calls, d)
      || Reported(st.log, st.generation[d], d)
      || Watched(st.safes, st.generation[d], d, ch)
  }

  ghost predicate AllCovered(st: State)
    requires Keyed(st)
  {
    forall d :: d in st.channels ==> Covered(st, d)
  }

  // ---- what keeps a device covered --------------------------------------------------------

  /** Nothing that covered d is lost, and nothing new is on. */
  ghost predicate NothingLost(st: State, next: State, d: Device)
    requires d in st.on && d in st.generation && d in next.on && d in next.generation
  {
    && next.generation[d] == st.generation[d]
    && next.on[d] <= st.on[d]
    && (Held(st.leases, st.calls, d) ==> Held(next.leases, next.calls, d))
    && (HotOn(st.calls, d) ==> HotOn(next.calls, d) || Held(next.leases, next.calls, d))
    && (Reported(st.log, st.generation[d], d) ==> Reported(next.log, st.generation[d], d))
    && (forall ch :: ch in next.on[d] && Watched(st.safes, st.generation[d], d, ch) ==>
          Watched(next.safes, st.generation[d], d, ch) || Reported(next.log, st.generation[d], d))
  }

  lemma NothingLostCovers(st: State, next: State, d: Device)
    requires d in st.on && d in st.generation && d in next.on && d in next.generation
    requires Covered(st, d) && NothingLost(st, next, d)
    ensures Covered(next, d)
  {
    hide Held, HotOn, Reported, Watched;
  }

  lemma HeldKept(leases: seq<Lease>, calls: map<CallId, Call>, leases': seq<Lease>,
                 calls': map<CallId, Call>, d: Device)
    requires Held(leases, calls, d)
    requires forall l :: l in leases && l.device == d && Sustains(calls, l) ==>
                           l in leases' && Sustains(calls', l)
    ensures Held(leases', calls', d)
  {}

  /** A fresh safe state watches every channel of its devices. */
  lemma DrivenIsCovered(st: State, devices: set<Device>, d: Device)
    requires Keyed(st) && d in devices && d in st.channels
    ensures var next := BeginSafe(st, devices);
            d in next.on && d in next.generation && Covered(next, d)
  {
    var next := BeginSafe(st, devices);
    var ds := devices * st.channels.Keys * st.generation.Keys;
    assert d in ds;
    forall ch ensures Watched(next.safes, next.generation[d], d, ch) {
      var safe := next.safes[st.nextSafe];
      assert Newest(safe, next.generation[d], d) && Guards(safe.progress[d], ch);
    }
  }

  lemma SparedIsKept(st: State, devices: set<Device>, d: Device)
    requires Keyed(st) && st.nextSafe !in st.safes && d !in devices && d in st.channels
    ensures var next := BeginSafe(st, devices);
            d in next.on && d in next.generation && (Covered(st, d) ==> Covered(next, d))
  {
    hide BeginSafe, Held, HotOn, Reported;
    var next := BeginSafe(st, devices);
    Bumped(st, devices);
    BeginSafeFrame(st, devices);
    SafesStay(st, devices);
    forall ch | Watched(st.safes, st.generation[d], d, ch)
      ensures Watched(next.safes, st.generation[d], d, ch)
    {
      var s :| s in st.safes && Newest(st.safes[s], st.generation[d], d)
               && Guards(st.safes[s].progress[d], ch);
      assert next.safes[s] == st.safes[s];
    }
  }

  /** Taking leases of other devices leaves d covered. */
  lemma TakenLeases(st: State, q: Query, d: Device)
    requires Keyed(st) && d in st.channels && Covered(st, d)
    requires forall l :: l in Taken(st.leases, q) ==> l.device != d
    ensures Covered(st.(leases := Left(st.leases, q)), d)
  {
    PickSplits(st.leases, q);
    var next := st.(leases := Left(st.leases, q));
    if Held(st.leases, st.calls, d) {
      HeldKept(st.leases, st.calls, next.leases, st.calls, d);
    }
    NothingLostCovers(st, next, d);
  }

  // ---- the steps that never uncover anything ---------------------------------------------

  lemma ReclaimCovers(st: State, q: Query)
    requires Inv(st) && AllCovered(st)
    ensures Keyed(Reclaim(st, q)) && AllCovered(Reclaim(st, q))
  {
    hide Covered, Inv, Taken, Left, BeginSafe;
    NextSafeIsNew(st);
    var taken := Taken(st.leases, q);
    var mid := st.(leases := Left(st.leases, q));
    if taken != [] {
      Bumped(mid, DevicesOf(taken));
      BeginSafeFrame(mid, DevicesOf(taken));
      forall d | d in st.channels ensures Covered(BeginSafe(mid, DevicesOf(taken)), d) {
        if d in DevicesOf(taken) {
          DrivenIsCovered(mid, DevicesOf(taken), d);
        } else {
          TakenLeases(st, q, d);
          SparedIsKept(mid, DevicesOf(taken), d);
        }
      }
    }
  }

  lemma EstopCovers(st: State)
    requires Keyed(st)
    ensures var next := BeginSafe(st.(estop := true, leases := []), st.channels.Keys);
            Keyed(next) && AllCovered(next)
  {
    hide Covered;
    var mid := st.(estop := true, leases := []);
    Bumped(mid, st.channels.Keys);
    forall d | d in st.channels ensures Covered(BeginSafe(mid, st.channels.Keys), d) {
      DrivenIsCovered(mid, st.channels.Keys, d);
    }
  }

  lemma BeginCovers(st: State, r: Request)
    requires Inv(st) && AllCovered(st) && r.device in st.generation
    ensures AllCovered(Begun(st, r))
  {
    hide Covered;
    var next := Begun(st, r);
    if Accepted(st, r) {
      assert st.nextCall !in st.calls;
      forall l | l in st.leases && Sustains(st.calls, l) ensures Sustains(next.calls, l) {
        assert LeaseOk(l, st.now, st.nextLease, st.channels.Keys);
      }
      forall d | d in st.channels ensures Covered(next, d) {
        if Held(st.leases, st.calls, d) { HeldKept(st.leases, st.calls, next.leases, next.calls, d); }
        if HotOn(st.calls, d) {
          var c :| c in st.calls && st.calls[c].device == d && Hot(st.calls[c]);
          assert next.calls[c] == st.calls[c];
        }
        NothingLostCovers(st, next, d);
      }
    }
  }

  lemma WriteCovers(st: State, c: CallId, value: bool)
    requires Inv(st) && Shaped(st) && AllCovered(st) && Enabled(st, HandlerWrite(c, value))
    ensures AllCovered(Written(st, c, value))
  {
    hide Covered, Inv;
    var next := Written(st, c, value);
    forall l | Sustains(st.calls, l) ensures Sustains(next.calls, l) {
      assert forall e :: e in next.calls && next.calls[e].lease == Some(l.id) ==> Hot(st.calls[e]);
    }
    forall d | d in st.channels ensures Covered(next, d) {
      if value && d == st.calls[c].device {
        assert Hot(next.calls[c]) && HotOn(next.calls, d);
        assert Covered(next, d) by { CoveredWhenHot(next, d); }
      } else {
        if Held(st.leases, st.calls, d) { HeldKept(st.leases, st.calls, next.leases, next.calls, d); }
        if HotOn(st.calls, d) {
          var e :| e in st.calls && st.calls[e].device == d && Hot(st.calls[e]);
          assert e in next.calls && next.calls[e].device == d && Hot(next.calls[e]);
        }
        NothingLostCovers(st, next, d);
      }
    }
  }

  lemma CoveredWhenHot(st: State, d: Device)
    requires d in st.on && d in st.generation && HotOn(st.calls, d)
    ensures Covered(st, d)
  {}

  lemma RenewCovers(st: State, id: LeaseId, connection: nat, ttl: Option<int>)
    requires Inv(st) && AllCovered(st)
    ensures AllCovered(Renewed(st, id, connection, ttl))
  {
    hide Covered;
    PickSplits(st.leases, Named(id));
    var found := Taken(st.leases, Named(id));
    var next := Renewed(st, id, connection, ttl);
    if found != [] && Renewable(st, found[0], connection, ttl) {
      var l := found[0];
      assert l in found;
      var renewed := Renewal(l, if ttl.Some? then ttl.value else l.ttl, st.now);
      ReplaceMembers(st.leases, l, renewed);
      forall d | d in st.channels ensures Covered(next, d) {
        if Held(st.leases, st.calls, d) {
          var m :| m in st.leases && m.device == d && Sustains(st.calls, m);
          var n := if m == l then renewed else m;
          assert n in next.leases && n.device == d && Sustains(st.calls, n);
        }
        NothingLostCovers(st, next, d);
      }
    }
  }

  lemma SafeWriteCovers(st: State, s: SafeId, d: Device, ch: Channel)
    requires Keyed(st) && AllCovered(st) && InFlight(st, s, d) && d in st.on
    ensures AllCovered(SafeWritten(st, s, d, ch))
  {
    hide Covered;
    var next := SafeWritten(st, s, d, ch);
    forall e | e in st.channels ensures Covered(next, e) {
      forall x | x in next.on[e] && Watched(st.safes, st.generation[e], e, x)
        ensures Watched(next.safes, st.generation[e], e, x)
      {
        var t :| t in st.safes && Newest(st.safes[t], st.generation[e], e)
                 && Guards(st.safes[t].progress[e], x);
        assert Newest(next.safes[t], st.generation[e], e) && Guards(next.safes[t].progress[e], x);
      }
      NothingLostCovers(st, next, e);
    }
  }

  /** A driver that is back leaves a device covered unless it vouches for it as the newest one. */
  lemma ReturnSpares(st: State, s: SafeId, d: Device, o: Outcome, e: Device)
    requires InFlight(st, s, d) && e in st.on && e in st.generation && Covered(st, e)
    requires e != d || !Safed(o) || !Newest(st.safes[s], st.generation[e], e)
    ensures Covered(SafeReturned(st, s, d, o), e)
  {
    hide Held, HotOn, Reported;
    var next := SafeReturned(st, s, d, o);
    forall x | Watched(st.safes, st.generation[e], e, x) ensures Watched(next.safes, st.generation[e], e, x) {
      var t :| t in st.safes && Newest(st.safes[t], st.generation[e], e)
               && Guards(st.safes[t].progress[e], x);
      assert Newest(next.safes[t], st.generation[e], e) && Guards(next.safes[t].progress[e], x);
    }
    NothingLostCovers(st, next, e);
  }

  lemma OutputsInChannels(st: State, d: Device)
    requires Inv(st) && d in st.channels
    ensures d in st.on && st.on[d] <= st.channels[d]
  {}

  lemma PublishCovers(st: State, s: SafeId)
    requires Inv(st) && Shaped(st) && AllCovered(st) && Enabled(st, SafePublish(s))
    ensures AllCovered(Apply(st, SafePublish(s)))
  {
    hide Covered, Inv, Verdicts;
    var next := Apply(st, SafePublish(s));
    VerdictsListed(st.drivers, st.safes[s]);
    forall d | d in st.channels ensures Covered(next, d) {
      forall ch | ch in next.on[d] && Watched(st.safes, st.generation[d], d, ch)
        ensures Watched(next.safes, st.generation[d], d, ch) || Reported(next.log, st.generation[d], d)
      {
        var t :| t in st.safes && Newest(st.safes[t], st.generation[d], d)
                 && Guards(st.safes[t].progress[d], ch);
        if t == s {
          assert Verdict(d, st.generation[d], false) in Verdicts(st.drivers, st.safes[s]);
        } else {
          assert next.safes[t] == st.safes[t];
        }
      }
      NothingLostCovers(st, next, d);
    }
  }
}
