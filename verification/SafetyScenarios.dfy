/**
 Concrete runs of a bench with two devices: each kind of guard in SafetyExposure can fail,
 and so can the one in SafetyTimeline.
 */
module SafetyScenarios {
  import opened Bytes
  import opened SafetyModel
  import opened SafetyInvariant
  import opened SafetyTheorems
  import opened SafetyCoverage
  import opened SafetyExposure
  import opened SafetyTimeline

  const OUTPUT: nat := 7

  // ---- runs, step by step ---------------------------------------------------------------------

  /** Some run reaches this state. */
  ghost predicate At(st: State)
  {
    exists states, steps :: Run(states, steps) && states[|steps|] == st
  }

  lemma AtInv(st: State)
    requires At(st)
    ensures Inv(st)
  {
    hide Inv, Shaped, Initial;
    var states, steps :| Run(states, steps) && states[|steps|] == st;
    RunInv(states, steps, |steps|);
  }

  /** From this state the step is possible and leads to the next one. */
  ghost predicate Goes(st: State, step: Step, next: State)
  {
    Shaped(st) ==> Enabled(st, step) && Apply(st, step) == next
  }

  /** Nothing accounts for something that is on. */
  ghost predicate Exposed(st: State, d: Device)
  {
    d in st.on && d in st.generation && !Covered(st, d)
  }

  /** The first step of a run after which nothing accounts for d: its guard fails. */
  ghost predicate Breaks(st: State, step: Step, next: State, d: Device)
  {
    && At(st) && At(next) && Accounted(st) && Exposed(next, d)
    && Shaped(st) && Enabled(st, step) && Apply(st, step) == next && !Benign(st, step)
  }

  lemma Then(st: State, step: Step, next: State)
    requires At(st) && Goes(st, step, next)
    ensures At(next)
  {
    hide Inv, Shaped, Enabled, Apply, Initial;
    AtInv(st);
    InvIsShaped(st);
    var states, steps :| Run(states, steps) && states[|steps|] == st;
    var states', steps' := states + [next], steps + [step];
    forall i | 0 <= i < |steps'| ensures Leads(states'[i], steps'[i], states'[i + 1]) {
      if i < |steps| { assert Leads(states[i], steps[i], states[i + 1]); }
    }
    assert Run(states', steps') && states'[|steps'|] == next;
  }

  lemma Broken(st: State, step: Step, next: State, d: Device)
    requires At(st) && Goes(st, step, next) && Accounted(st) && Exposed(next, d)
    ensures Breaks(st, step, next, d)
  {
    hide Inv, Shaped, Enabled, Apply, Covered, Benign, At;
    Then(st, step, next);
    AtInv(st);
    InvIsShaped(st);
    AtInv(next);
    StepCovers(st, step);
    assert !AllCovered(next) by {
      NextSafeIsNew(next);
      assert d in next.channels;
    }
  }

  const FINE: Outcome := Answered(false)
  const BOOT: seq<Verdict> := [Verdict(0, 1, true), Verdict(1, 1, true)]

  // ---- a bench whose outputs are switched on --------------------------------------------------

  function Bench(channels: map<Device, set<Channel>>): State
  {
    State([0, 1], channels, false, 0, [], 0, map[0 := 1, 1 := 1], map[0 := {}, 1 := {}],
          map[], 0, map[], 1, BOOT, map[])
  }

  function Switch(kind: Kind): Request
  {
    Request(0, OUTPUT, kind, 1, 60, true, false)
  }

  function Held60(id: LeaseId): Lease
  {
    Lease(id, 0, OUTPUT, 1, 60, 60)
  }

  /** A bench with these channels of device 0 on, these leases and these calls. */
  function Seen(channels: map<Device, set<Channel>>, on: set<Channel>, leases: seq<Lease>, nextLease: nat,
                calls: map<CallId, Call>, nextCall: nat): State
  {
    Bench(channels).(on := map[0 := on, 1 := {}], leases := leases, nextLease := nextLease,
                     calls := calls, nextCall := nextCall)
  }

  function Lighting(n: nat, ch: Channel, wrote: bool): Call
  {
    Call(0, OUTPUT, Energise(ch), Some(n), 1, Running(wrote))
  }

  /** The bench while its start-up safe state is under way. */
  function Booting(channels: map<Device, set<Channel>>, on: set<Channel>, p0: Progress, p1: Progress): State
  {
    State([0, 1], channels, false, 0, [], 0, map[0 := 1, 1 := 1], map[0 := on, 1 := {}], map[], 0,
          map[0 := SafeState(map[0 := 1, 1 := 1], map[0 := p0, 1 := p1])], 1, [], map[])
  }

  lemma SafeBegins(st: State, devices: set<Device>, ds: set<Device>, g: map<Device, nat>, p: map<Device, Progress>)
    requires ds == devices * st.channels.Keys * st.generation.Keys && ds != {}
    requires g.Keys == ds == p.Keys
    requires forall d :: d in ds ==> g[d] == st.generation[d] + 1 && p[d] == Working({})
    ensures BeginSafe(st, devices) ==
            st.(generation := st.generation + g, safes := st.safes[st.nextSafe := SafeState(g, p)],
                nextSafe := st.nextSafe + 1)
  {
    var safe := BeginSafe(st, devices).safes[st.nextSafe];
    assert safe.generations == g;
    assert safe.progress == p;
  }

  lemma BootBegins(channels: map<Device, set<Channel>>, on: set<Channel>)
    requires channels.Keys == {0, 1} && on <= channels[0]
    ensures Initial(Booting(channels, on, Working({}), Working({})))
    ensures At(Booting(channels, on, Working({}), Working({})))
  {
    hide BeginSafe;
    var st := Booting(channels, on, Working({}), Working({}));
    var found := Found([0, 1], channels, st.on, 0);
    SafeBegins(found, {0, 1}, {0, 1}, map[0 := 1, 1 := 1], map[0 := Working({}), 1 := Working({})]);
    assert found.generation + map[0 := 1, 1 := 1] == map[0 := 1, 1 := 1];
    assert Initial(st);
    var states, steps := [st], [];
    assert Run(states, steps) && states[|steps|] == st;
  }

  lemma BootReturns(channels: map<Device, set<Channel>>, on: set<Channel>)
    ensures Goes(Booting(channels, on, Working({}), Working({})), SafeReturn(0, 0, FINE),
                 Booting(channels, on, Returned(FINE), Working({})))
    ensures Goes(Booting(channels, on, Returned(FINE), Working({})), SafeReturn(0, 1, FINE),
                 Booting(channels, on, Returned(FINE), Returned(FINE)))
  {
    hide Shaped;
    var st := Booting(channels, on, Working({}), Working({}));
    assert st.safes[0].progress[0 := Returned(FINE)] == map[0 := Returned(FINE), 1 := Working({})];
    var nx := Booting(channels, on, Returned(FINE), Working({}));
    assert nx.safes[0].progress[1 := Returned(FINE)] == map[0 := Returned(FINE), 1 := Returned(FINE)];
  }

  lemma BootPublishes(channels: map<Device, set<Channel>>, on: set<Channel>)
    ensures Goes(Booting(channels, on, Returned(FINE), Returned(FINE)), SafePublish(0),
                 Seen(channels, on, [], 0, map[], 0))
  {
    hide Shaped;
    var st := Booting(channels, on, Returned(FINE), Returned(FINE));
    assert [0, 1][..1] == [0] && [0][..0] == [];
    assert Verdicts([0], st.safes[0]) == [Verdict(0, 1, true)];
    assert Verdicts([0, 1], st.safes[0]) == BOOT;
    assert st.safes - {0} == map[];
  }

  /** Both drivers are back without an error: the start-up safe state is on record. */
  lemma Booted(channels: map<Device, set<Channel>>, on: set<Channel>)
    requires channels.Keys == {0, 1} && on <= channels[0]
    ensures Initial(Booting(channels, on, Working({}), Working({})))
    ensures At(Booting(channels, on, Working({}), Working({})))
    ensures At(Seen(channels, on, [], 0, map[], 0))
  {
    hide *;
    BootBegins(channels, on);
    BootReturns(channels, on);
    BootPublishes(channels, on);
    var back := Booting(channels, on, Returned(FINE), Working({}));
    Then(Booting(channels, on, Working({}), Working({})), SafeReturn(0, 0, FINE), back);
    Then(back, SafeReturn(0, 1, FINE), Booting(channels, on, Returned(FINE), Returned(FINE)));
    Then(Booting(channels, on, Returned(FINE), Returned(FINE)), SafePublish(0), Seen(channels, on, [], 0, map[], 0));
  }

  lemma OnBegins(channels: map<Device, set<Channel>>, on: set<Channel>, leases: seq<Lease>, n: nat, k: nat, ch: Channel)
    requires 0 in channels && ch in channels[0]
    ensures Goes(Seen(channels, on, leases, n, map[], k), Begin(Switch(Energise(ch))),
                 Seen(channels, on, leases + [Held60(n)], n + 1, map[k := Lighting(n, ch, false)], k + 1))
  {
    hide Shaped;
    assert Accepted(Seen(channels, on, leases, n, map[], k), Switch(Energise(ch)));
  }

  lemma OnWrites(channels: map<Device, set<Channel>>, on: set<Channel>, leases: seq<Lease>, n: nat, k: nat, ch: Channel)
    requires n > 0
    ensures Goes(Seen(channels, on, leases, n, map[k := Lighting(n - 1, ch, false)], k + 1), HandlerWrite(k, true),
                 Seen(channels, on + {ch}, leases, n, map[k := Lighting(n - 1, ch, true)], k + 1))
  {
    hide Shaped;
    var st := Seen(channels, on, leases, n, map[k := Lighting(n - 1, ch, false)], k + 1);
    assert st.on[0 := on + {ch}] == map[0 := on + {ch}, 1 := {}];
    assert st.calls[k := Lighting(n - 1, ch, true)] == map[k := Lighting(n - 1, ch, true)];
  }

  lemma OnReturns(channels: map<Device, set<Channel>>, on: set<Channel>, leases: seq<Lease>, n: nat, k: nat,
                  ch: Channel)
    requires n > 0
    ensures Goes(Seen(channels, on, leases, n, map[k := Lighting(n - 1, ch, true)], k + 1), HandlerReturn(k),
                 Seen(channels, on, leases, n, map[], k + 1))
  {
    hide Shaped;
    assert map[k := Lighting(n - 1, ch, true)] - {k} == map[];
  }

  /** Switching channel ch on: the handler has written, and then the call is over. */
  lemma SwitchedOn(channels: map<Device, set<Channel>>, on: set<Channel>, leases: seq<Lease>, n: nat, k: nat,
                   ch: Channel)
    requires At(Seen(channels, on, leases, n, map[], k)) && 0 in channels && ch in channels[0]
    ensures At(Seen(channels, on + {ch}, leases + [Held60(n)], n + 1, map[k := Lighting(n, ch, true)], k + 1))
    ensures At(Seen(channels, on + {ch}, leases + [Held60(n)], n + 1, map[], k + 1))
  {
    hide *;
    var before, after := leases, leases + [Held60(n)];
    OnBegins(channels, on, before, n, k, ch);
    Then(Seen(channels, on, before, n, map[], k), Begin(Switch(Energise(ch))),
         Seen(channels, on, after, n + 1, map[k := Lighting(n, ch, false)], k + 1));
    OnWrites(channels, on, after, n + 1, k, ch);
    Then(Seen(channels, on, after, n + 1, map[k := Lighting(n, ch, false)], k + 1), HandlerWrite(k, true),
         Seen(channels, on + {ch}, after, n + 1, map[k := Lighting(n, ch, true)], k + 1));
    OnReturns(channels, on + {ch}, after, n + 1, k, ch);
    Then(Seen(channels, on + {ch}, after, n + 1, map[k := Lighting(n, ch, true)], k + 1), HandlerReturn(k),
         Seen(channels, on + {ch}, after, n + 1, map[], k + 1));
  }

  /** A device with nothing on needs nothing; one that is on may have a running handler or a lease. */
  lemma Lit(st: State)
    requires Inv(st) && st.channels.Keys == {0, 1} && 1 in st.on && st.on[1] == {} && 0 in st.on
    requires st.on[0] == {} || HotOn(st.calls, 0) || Held(st.leases, st.calls, 0)
    ensures Accounted(st)
  {
    NextSafeIsNew(st);
  }

  lemma Bare(st: State, d: Device)
    requires d in st.on && d in st.generation && st.on[d] != {} && st.leases == [] && st.calls == map[]
    requires forall s :: s in st.safes && d in st.safes[s].generations && d in st.safes[s].progress ==>
                           st.safes[s].generations[d] != st.generation[d] || Reassured(st.safes[s].progress[d])
    requires Verdict(d, st.generation[d], false) !in st.log
    ensures Exposed(st, d)
  {
    var ch :| ch in st.on[d];
    assert !Held(st.leases, st.calls, d) && !HotOn(st.calls, d);
    assert !Watched(st.safes, st.generation[d], d, ch) && !Reported(st.log, st.generation[d], d);
  }

  // ---- a handler that raises after switching on -----------------------------------------------

  const ONE: map<Device, set<Channel>> := map[0 := {0}, 1 := {}]

  lemma OneLit()
    ensures At(Seen(ONE, {0}, [Held60(0)], 1, map[0 := Lighting(0, 0, true)], 1))
    ensures At(Seen(ONE, {0}, [Held60(0)], 1, map[], 1))
  {
    hide At, Seen;
    Booted(ONE, {});
    SwitchedOn(ONE, {}, [], 0, 0, 0);
    assert {} + {0} == {0} && [] + [Held60(0)] == [Held60(0)];
  }

  lemma SoleRaises(on: set<Channel>, wrote: bool, late: Option<bool>)
    ensures Goes(Seen(ONE, on, [Held60(0)], 1, map[0 := Lighting(0, 0, wrote)], 1), HandlerRaise(0, late),
                 Seen(ONE, on, [], 1, map[], 1)
                 .(late := if late.None? then map[] else map[0 := Straggler(0, 0, late.value)]))
  {
    hide Shaped;
    TakenSnoc([], Held60(0), Named(0));
    assert [] + [Held60(0)] == [Held60(0)];
    assert map[0 := Lighting(0, 0, wrote)] - {0} == map[];
  }

  /**
   A handler that switches its output on and then raises (a device that does not confirm)
   gives its lease back and starts no safe state: the output is on and nothing says so.
   */
  lemma RaiseAfterSwitchingOn()
    ensures exists st, next :: Breaks(st, HandlerRaise(0, None), next, 0)
                               && next.on == map[0 := {0}, 1 := {}] && next.leases == [] && next.calls == map[]
                               && next.safes == map[] && next.log == BOOT && next.late == map[]
  {
    hide At, Goes, Exposed, Accounted, Breaks;
    var st := Seen(ONE, {0}, [Held60(0)], 1, map[0 := Lighting(0, 0, true)], 1);
    var next := Seen(ONE, {0}, [], 1, map[], 1);
    OneLit();
    SoleRaises({0}, true, None);
    HotIsLit(st);
    Bare(next, 0);
    Broken(st, HandlerRaise(0, None), next, 0);
  }

  lemma HotIsLit(st: State)
    requires At(st) && st == Seen(ONE, {0}, [Held60(0)], 1, map[0 := Lighting(0, 0, true)], 1)
    ensures Accounted(st)
  {
    hide Inv, Shaped, At, Accounted;
    AtInv(st);
    assert Hot(st.calls[0]) && HotOn(st.calls, 0);
    Lit(st);
  }

  // ---- two outputs on one device --------------------------------------------------------------

  const TWO: map<Device, set<Channel>> := map[0 := {0, 1}, 1 := {}]

  function Darkening(wrote: bool): Call
  {
    Call(0, OUTPUT, Deenergise(0), None, 1, Running(wrote))
  }

  lemma OffBegins()
    ensures Goes(Seen(TWO, {0, 1}, [Held60(0), Held60(1)], 2, map[], 2), Begin(Switch(Deenergise(0))),
                 Seen(TWO, {0, 1}, [Held60(0), Held60(1)], 2, map[2 := Darkening(false)], 3))
  {
    hide Shaped;
    assert Accepted(Seen(TWO, {0, 1}, [Held60(0), Held60(1)], 2, map[], 2), Switch(Deenergise(0)));
  }

  lemma OffWrites()
    ensures Goes(Seen(TWO, {0, 1}, [Held60(0), Held60(1)], 2, map[2 := Darkening(false)], 3), HandlerWrite(2, false),
                 Seen(TWO, {1}, [Held60(0), Held60(1)], 2, map[2 := Darkening(true)], 3))
  {
    hide Shaped;
    var st := Seen(TWO, {0, 1}, [Held60(0), Held60(1)], 2, map[2 := Darkening(false)], 3);
    assert {0, 1} - {0} == {1};
    assert st.on[0 := {1}] == map[0 := {1}, 1 := {}];
    assert st.calls[2 := Darkening(true)] == map[2 := Darkening(true)];
  }

  lemma OffReturns()
    ensures Goes(Seen(TWO, {1}, [Held60(0), Held60(1)], 2, map[2 := Darkening(true)], 3), HandlerReturn(2),
                 Seen(TWO, {1}, [], 2, map[], 3))
  {
    hide Shaped, Left, Matches;
    BothReleased();
    assert map[2 := Darkening(true)] - {2} == map[];
  }

  lemma BothReleased()
    ensures Left([Held60(0), Held60(1)], OutputOf(0, OUTPUT, 0)) == []
  {
    var q := OutputOf(0, OUTPUT, 0);
    TakenSnoc([], Held60(0), q);
    TakenSnoc([Held60(0)], Held60(1), q);
    assert [] + [Held60(0)] == [Held60(0)] && [Held60(0)] + [Held60(1)] == [Held60(0), Held60(1)];
  }

  lemma FirstLit()
    ensures At(Seen(TWO, {0}, [Held60(0)], 1, map[], 1))
  {
    hide At, Seen, Held60;
    Booted(TWO, {});
    SwitchedOn(TWO, {}, [], 0, 0, 0);
    assert {} + {0} == {0} && [] + [Held60(0)] == [Held60(0)];
  }

  lemma BothLit()
    ensures At(Seen(TWO, {0, 1}, [Held60(0), Held60(1)], 2, map[], 2))
  {
    hide At, Seen, Held60;
    FirstLit();
    SwitchedOn(TWO, {0}, [Held60(0)], 1, 1, 1);
    assert {0} + {1} == {0, 1} && [Held60(0)] + [Held60(1)] == [Held60(0), Held60(1)];
  }

  lemma OffWritten()
    ensures At(Seen(TWO, {1}, [Held60(0), Held60(1)], 2, map[2 := Darkening(true)], 3))
  {
    hide *;
    BothLit();
    OffBegins();
    Then(Seen(TWO, {0, 1}, [Held60(0), Held60(1)], 2, map[], 2), Begin(Switch(Deenergise(0))),
         Seen(TWO, {0, 1}, [Held60(0), Held60(1)], 2, map[2 := Darkening(false)], 3));
    OffWrites();
    Then(Seen(TWO, {0, 1}, [Held60(0), Held60(1)], 2, map[2 := Darkening(false)], 3), HandlerWrite(2, false),
         Seen(TWO, {1}, [Held60(0), Held60(1)], 2, map[2 := Darkening(true)], 3));
  }

  lemma LeaseIsLit(st: State)
    requires At(st) && st == Seen(TWO, {1}, [Held60(0), Held60(1)], 2, map[2 := Darkening(true)], 3)
    ensures Accounted(st)
  {
    hide Inv, Shaped, At, Accounted;
    AtInv(st);
    assert Held60(0) in st.leases && Sustains(st.calls, Held60(0));
    assert Held(st.leases, st.calls, 0);
    Lit(st);
  }

  /**
   Switching one output off releases the leases of both outputs of its device, because they
   are told apart by device and action only: the other output stays on without a lease.
   */
  lemma OneOffReleasesBoth()
    ensures exists st, next :: Breaks(st, HandlerReturn(2), next, 0)
                               && next.on == map[0 := {1}, 1 := {}] && next.leases == [] && next.calls == map[]
                               && next.safes == map[] && next.log == BOOT && next.late == map[]
  {
    hide At, Goes, Exposed, Accounted, Breaks;
    var st := Seen(TWO, {1}, [Held60(0), Held60(1)], 2, map[2 := Darkening(true)], 3);
    var next := Seen(TWO, {1}, [], 2, map[], 3);
    OffWritten();
    OffReturns();
    LeaseIsLit(st);
    Bare(next, 0);
    Broken(st, HandlerReturn(2), next, 0);
  }

  // ---- under an emergency stop ------------------------------------------------------------------

  /** The bench with one output after an emergency stop. */
  function Halted(on: set<Channel>, latest: nat, calls: map<CallId, Call>, safes: map<SafeId, SafeState>,
                  nextSafe: nat, log: seq<Verdict>, late: map<CallId, Straggler>): State
  {
    State([0, 1], ONE, true, 0, [], 1, map[0 := latest, 1 := 2], map[0 := on, 1 := {}],
          calls, 1, safes, nextSafe, log, late)
  }

  /** The stop's own safe state. */
  function Stop(p0: Progress, p1: Progress): SafeState
  {
    SafeState(map[0 := 2, 1 := 2], map[0 := p0, 1 := p1])
  }

  const NEITHER: map<SafeId, SafeState> := map[1 := Stop(Working({}), Working({}))]
  const FIRST: map<SafeId, SafeState> := map[1 := Stop(Returned(FINE), Working({}))]
  const BOTH: map<SafeId, SafeState> := map[1 := Stop(Returned(FINE), Returned(FINE))]
  const ALL_SAFE: seq<Verdict> := [Verdict(0, 2, true), Verdict(1, 2, true)]
  const STOPPED: seq<Verdict> := BOOT + ALL_SAFE

  lemma BothBegin(st: State)
    requires st.channels == ONE && st.generation == map[0 := 1, 1 := 1]
    ensures BeginSafe(st, st.channels.Keys) ==
            st.(generation := map[0 := 2, 1 := 2], nextSafe := st.nextSafe + 1,
                safes := st.safes[st.nextSafe := Stop(Working({}), Working({}))])
  {
    hide BeginSafe;
    SafeBegins(st, {0, 1}, {0, 1}, map[0 := 2, 1 := 2], map[0 := Working({}), 1 := Working({})]);
    assert st.channels.Keys == {0, 1};
    assert st.generation + map[0 := 2, 1 := 2] == map[0 := 2, 1 := 2];
  }

  lemma Stops(on: set<Channel>, leases: seq<Lease>, calls: map<CallId, Call>, late: map<CallId, Straggler>)
    ensures Goes(Seen(ONE, on, leases, 1, calls, 1).(late := late), Estop, Halted(on, 2, calls, NEITHER, 2, BOOT, late))
  {
    hide Shaped, BeginSafe;
    BothBegin(Seen(ONE, on, [], 1, calls, 1).(late := late, estop := true));
  }

  lemma FirstReturns(on: set<Channel>, p: Progress, late: map<CallId, Straggler>, calls: map<CallId, Call>)
    requires p.Working?
    ensures Goes(Halted(on, 2, calls, map[1 := Stop(p, Working({}))], 2, BOOT, late), SafeReturn(1, 0, FINE),
                 Halted(on, 2, calls, FIRST, 2, BOOT, late))
  {
    hide Shaped;
    var st := Halted(on, 2, calls, map[1 := Stop(p, Working({}))], 2, BOOT, late);
    assert st.safes[1].progress[0 := Returned(FINE)] == map[0 := Returned(FINE), 1 := Working({})];
    assert st.safes[1 := Stop(Returned(FINE), Working({}))] == FIRST;
  }

  lemma SecondReturns(on: set<Channel>, latest: nat, n: nat, log: seq<Verdict>, late: map<CallId, Straggler>)
    ensures Goes(Halted(on, latest, map[], FIRST, n, log, late), SafeReturn(1, 1, FINE),
                 Halted(on, latest, map[], BOTH, n, log, late))
  {
    hide Shaped;
    var st := Halted(on, latest, map[], FIRST, n, log, late);
    assert st.safes[1].progress[1 := Returned(FINE)] == map[0 := Returned(FINE), 1 := Returned(FINE)];
    assert st.safes[1 := Stop(Returned(FINE), Returned(FINE))] == BOTH;
  }

  lemma StopPublishes(on: set<Channel>, latest: nat, n: nat, log: seq<Verdict>, late: map<CallId, Straggler>)
    ensures Goes(Halted(on, latest, map[], BOTH, n, log, late), SafePublish(1),
                 Halted(on, latest, map[], map[], n, log + ALL_SAFE, late))
  {
    hide Shaped;
    var safe := Stop(Returned(FINE), Returned(FINE));
    assert [0, 1][..1] == [0] && [0][..0] == [];
    assert Verdicts([0], safe) == [Verdict(0, 2, true)];
    assert Verdicts([0, 1], safe) == ALL_SAFE;
    assert BOTH - {1} == map[];
  }

  /** The stop's drivers are back without an error and its verdicts are published. */
  lemma StopEnds(on: set<Channel>, late: map<CallId, Straggler>)
    requires At(Halted(on, 2, map[], NEITHER, 2, BOOT, late))
    ensures At(Halted(on, 2, map[], FIRST, 2, BOOT, late))
    ensures At(Halted(on, 2, map[], map[], 2, STOPPED, late))
  {
    hide At, Goes, Halted, Stop;
    FirstReturns(on, Working({}), late, map[]);
    Then(Halted(on, 2, map[], NEITHER, 2, BOOT, late), SafeReturn(1, 0, FINE),
         Halted(on, 2, map[], FIRST, 2, BOOT, late));
    SecondReturns(on, 2, 2, BOOT, late);
    Then(Halted(on, 2, map[], FIRST, 2, BOOT, late), SafeReturn(1, 1, FINE), Halted(on, 2, map[], BOTH, 2, BOOT, late));
    StopPublishes(on, 2, 2, BOOT, late);
    Then(Halted(on, 2, map[], BOTH, 2, BOOT, late), SafePublish(1), Halted(on, 2, map[], map[], 2, STOPPED, late));
  }

  // ---- a driver that reports no error -----------------------------------------------------------

  /**
   A driver whose every write fails and which returns without an `error` (fielddeck/bench/visa.py
   collects its failures under `errors`): the stop puts "safe" on record for both devices, and
   the output is on with nothing left that would turn it off.
   */
  lemma DriverVouchesWrongly()
    ensures exists st, next :: Breaks(st, SafeReturn(1, 0, FINE), next, 0)
    ensures exists st :: At(st) && Exposed(st, 0) && st.estop && st.on == map[0 := {0}, 1 := {}] && st.log == STOPPED
                         && st.leases == [] && st.calls == map[] && st.safes == map[] && st.late == map[]
  {
    hide At, Goes, Exposed, Accounted, Breaks;
    var st := Halted({0}, 2, map[], NEITHER, 2, BOOT, map[]);
    var next := Halted({0}, 2, map[], FIRST, 2, BOOT, map[]);
    var end := Halted({0}, 2, map[], map[], 2, STOPPED, map[]);
    OneLit();
    Stops({0}, [Held60(0)], map[], map[]);
    Then(Seen(ONE, {0}, [Held60(0)], 1, map[], 1), Estop, st);
    StopEnds({0}, map[]);
    FirstReturns({0}, Working({}), map[], map[]);
    StopIsWatched(st);
    Bare(next, 0);
    Broken(st, SafeReturn(1, 0, FINE), next, 0);
    Bare(end, 0);
  }

  lemma StopIsWatched(st: State)
    requires At(st) && st == Halted({0}, 2, map[], NEITHER, 2, BOOT, map[])
    ensures Accounted(st)
  {
    hide Inv, Shaped, At, Accounted;
    AtInv(st);
    WatchedIsLit(st, 1);
  }

  lemma WatchedIsLit(st: State, s: SafeId)
    requires Inv(st) && st.channels.Keys == {0, 1} && st.on == map[0 := {0}, 1 := {}] && 0 in st.generation
    requires s in st.safes && Newest(st.safes[s], st.generation[0], 0) && Guards(st.safes[s].progress[0], 0)
    ensures Accounted(st)
  {
    hide Inv, Held, HotOn, Reported;
    NextSafeIsNew(st);
    assert Watched(st.safes, st.generation[0], 0, 0);
  }

  // ---- a stop whose client goes away ------------------------------------------------------------

  lemma StopDies()
    ensures Goes(Halted({0}, 2, map[], NEITHER, 2, BOOT, map[]), SafeCancelled(1),
                 Halted({0}, 2, map[], map[], 2, BOOT, map[]))
  {
    hide Shaped;
    assert NEITHER - {1} == map[];
  }

  /**
   A client that asks for the stop and goes away has its request cancelled, and the stop's own
   safe state with it: the latch is set, no lease is left, and the output is still on.
   */
  lemma CancelledStop()
    ensures exists st, next :: Breaks(st, SafeCancelled(1), next, 0) && next.estop && next.log == BOOT
                               && next.on == map[0 := {0}, 1 := {}] && next.leases == [] && next.calls == map[]
                               && next.safes == map[] && next.late == map[]
  {
    hide At, Goes, Exposed, Accounted, Breaks;
    var st := Halted({0}, 2, map[], NEITHER, 2, BOOT, map[]);
    var next := Halted({0}, 2, map[], map[], 2, BOOT, map[]);
    OneLit();
    Stops({0}, [Held60(0)], map[], map[]);
    Then(Seen(ONE, {0}, [Held60(0)], 1, map[], 1), Estop, st);
    StopDies();
    StopIsWatched(st);
    Bare(next, 0);
    Broken(st, SafeCancelled(1), next, 0);
  }

  // ---- an output that is on at start-up ---------------------------------------------------------

  /**
   The same driver at start-up, with its output on already: "safe" is on record before any
   client has called, and the output stays on.
   */
  lemma StartUpVouchesWrongly()
    ensures exists st, next :: Breaks(st, SafeReturn(0, 0, FINE), next, 0) && Initial(st)
    ensures exists st :: At(st) && Exposed(st, 0) && st.on == map[0 := {0}, 1 := {}] && st.log == BOOT
                         && st.leases == [] && st.calls == map[] && st.safes == map[] && st.late == map[]
  {
    hide At, Goes, Exposed, Accounted, Breaks, Initial;
    var st := Booting(ONE, {0}, Working({}), Working({}));
    var next := Booting(ONE, {0}, Returned(FINE), Working({}));
    Booted(ONE, {0});
    BootReturns(ONE, {0});
    BootIsWatched(st);
    Bare(next, 0);
    Broken(st, SafeReturn(0, 0, FINE), next, 0);
    Bare(Seen(ONE, {0}, [], 0, map[], 0), 0);
  }

  lemma BootIsWatched(st: State)
    requires At(st) && st == Booting(ONE, {0}, Working({}), Working({}))
    ensures Accounted(st)
  {
    hide Inv, Shaped, At, Accounted;
    AtInv(st);
    WatchedIsLit(st, 0);
  }

  // ---- a write that lands late ------------------------------------------------------------------

  const THREAD: map<CallId, Straggler> := map[0 := Straggler(0, 0, true)]

  lemma LateLands()
    ensures Goes(Halted({}, 2, map[], map[], 2, STOPPED, THREAD), LateWrite(0),
                 Halted({0}, 2, map[], map[], 2, STOPPED, map[]))
  {
    hide Shaped;
    assert {} + {0} == {0};
    assert THREAD - {0} == map[];
    var st := Halted({}, 2, map[], map[], 2, STOPPED, THREAD);
    assert st.on[0 := {0}] == map[0 := {0}, 1 := {}];
  }

  lemma LateBegun()
    ensures At(Seen(ONE, {}, [Held60(0)], 1, map[0 := Lighting(0, 0, false)], 1))
  {
    hide At, Goes, Seen, Held60;
    Booted(ONE, {});
    OnBegins(ONE, {}, [], 0, 0, 0);
    assert [] + [Held60(0)] == [Held60(0)];
    Then(Seen(ONE, {}, [], 0, map[], 0), Begin(Switch(Energise(0))),
         Seen(ONE, {}, [Held60(0)], 1, map[0 := Lighting(0, 0, false)], 1));
  }

  lemma LateRaised()
    ensures At(Halted({}, 2, map[], NEITHER, 2, BOOT, THREAD))
  {
    hide At, Goes;
    LateBegun();
    SoleRaises({}, false, Some(true));
    var gone := Seen(ONE, {}, [], 1, map[], 1).(late := THREAD);
    Then(Seen(ONE, {}, [Held60(0)], 1, map[0 := Lighting(0, 0, false)], 1), HandlerRaise(0, Some(true)), gone);
    Stops({}, [], map[], THREAD);
    Then(gone, Estop, Halted({}, 2, map[], NEITHER, 2, BOOT, THREAD));
  }

  /**
   A client goes away while its handler's write is still in a worker thread, as the writes of
   fielddeck/bench/scpi.py and fielddeck/transports/gpio.py are. The stop finds nothing on and
   puts "safe" on record; then the write lands.
   */
  lemma WriteAfterTheCall()
    ensures exists st, next :: Breaks(st, LateWrite(0), next, 0) && st.estop && st.log == STOPPED == next.log
                               && next.on == map[0 := {0}, 1 := {}] && next.leases == [] && next.calls == map[]
                               && next.safes == map[] && next.late == map[]
  {
    hide At, Goes, Exposed, Accounted, Breaks;
    var st := Halted({}, 2, map[], map[], 2, STOPPED, THREAD);
    var next := Halted({0}, 2, map[], map[], 2, STOPPED, map[]);
    LateRaised();
    StopEnds({}, THREAD);
    LateLands();
    DarkIsLit(st);
    Bare(next, 0);
    Broken(st, LateWrite(0), next, 0);
  }

  lemma DarkIsLit(st: State)
    requires At(st) && st.channels.Keys == {0, 1} && st.on == map[0 := {}, 1 := {}]
    ensures Accounted(st)
  {
    hide Inv, Shaped, At, Accounted;
    AtInv(st);
    Lit(st);
  }

  // ---- a call overtaken by the stop -------------------------------------------------------------

  const LIT := Lighting(0, 0, true)

  lemma Cleared()
    ensures Goes(Halted({0}, 2, map[0 := LIT], NEITHER, 2, BOOT, map[]), SafeWrite(1, 0, 0),
                 Halted({}, 2, map[0 := LIT], map[1 := Stop(Working({0}), Working({}))], 2, BOOT, map[]))
  {
    hide Shaped;
    var st := Halted({0}, 2, map[0 := LIT], NEITHER, 2, BOOT, map[]);
    assert {} + {0} == {0} && {0} - {0} == {};
    assert st.safes[1].progress[0 := Working({0})] == map[0 := Working({0}), 1 := Working({})];
    assert st.safes[1 := Stop(Working({0}), Working({}))] == map[1 := Stop(Working({0}), Working({}))];
    assert st.on[0 := {}] == map[0 := {}, 1 := {}];
  }

  lemma WrittenAgain()
    ensures Goes(Halted({}, 2, map[0 := LIT], FIRST, 2, BOOT, map[]), HandlerWrite(0, true),
                 Halted({0}, 2, map[0 := LIT], FIRST, 2, BOOT, map[]))
  {
    hide Shaped;
    var st := Halted({}, 2, map[0 := LIT], FIRST, 2, BOOT, map[]);
    assert {} + {0} == {0};
    assert st.on[0 := {0}] == map[0 := {0}, 1 := {}];
    assert st.calls[0 := LIT] == map[0 := LIT];
  }

  const UNDOING := LIT.(phase := Reverting(2))

  /** The stop is waiting for its slow device, and the call's own safe state has come this far. */
  function Twice(p: Progress): State
  {
    Halted({0}, 3, map[0 := UNDOING],
           map[1 := Stop(Returned(FINE), Working({})), 2 := SafeState(map[0 := 3], map[0 := p])], 3, BOOT, map[])
  }

  lemma Overtook()
    ensures Goes(Halted({0}, 2, map[0 := LIT], FIRST, 2, BOOT, map[]), HandlerReturn(0), Twice(Working({})))
  {
    hide Shaped, BeginSafe;
    var st := Halted({0}, 2, map[0 := LIT], FIRST, 2, BOOT, map[]);
    assert Left([], Named(0)) == [] && Abandon(st, LIT) == st;
    assert {0} * st.channels.Keys * st.generation.Keys == {0};
    SafeBegins(st, {0}, {0}, map[0 := 3], map[0 := Working({})]);
    assert st.generation + map[0 := 3] == map[0 := 3, 1 := 2];
    assert st.calls[0 := UNDOING] == map[0 := UNDOING];
  }

  /** A call overtaken by the stop has switched on again, and its own safe state has begun. */
  lemma OvertakenTwice()
    ensures At(Twice(Working({})))
  {
    hide At, Goes, Halted, Stop, Twice;
    OneLit();
    Stops({0}, [Held60(0)], map[0 := LIT], map[]);
    Then(Seen(ONE, {0}, [Held60(0)], 1, map[0 := LIT], 1), Estop,
         Halted({0}, 2, map[0 := LIT], NEITHER, 2, BOOT, map[]));
    Cleared();
    var cleared := map[1 := Stop(Working({0}), Working({}))];
    Then(Halted({0}, 2, map[0 := LIT], NEITHER, 2, BOOT, map[]), SafeWrite(1, 0, 0),
         Halted({}, 2, map[0 := LIT], cleared, 2, BOOT, map[]));
    FirstReturns({}, Working({0}), map[], map[0 := LIT]);
    Then(Halted({}, 2, map[0 := LIT], cleared, 2, BOOT, map[]), SafeReturn(1, 0, FINE),
         Halted({}, 2, map[0 := LIT], FIRST, 2, BOOT, map[]));
    WrittenAgain();
    Then(Halted({}, 2, map[0 := LIT], FIRST, 2, BOOT, map[]), HandlerWrite(0, true),
         Halted({0}, 2, map[0 := LIT], FIRST, 2, BOOT, map[]));
    Overtook();
    Then(Halted({0}, 2, map[0 := LIT], FIRST, 2, BOOT, map[]), HandlerReturn(0), Twice(Working({})));
  }

  lemma RevertDies()
    ensures Goes(Twice(Working({})), RevertCancelled(0), Halted({0}, 3, map[], FIRST, 3, BOOT, map[]))
  {
    hide Shaped;
    var st := Twice(Working({}));
    assert Left([], Named(0)) == [];
    assert st.calls - {0} == map[];
    assert st.safes - {2} == FIRST;
  }

  lemma TwiceIsWatched(st: State)
    requires At(st) && st == Twice(Working({}))
    ensures Accounted(st)
  {
    hide Inv, Shaped, At, Accounted;
    AtInv(st);
    WatchedIsLit(st, 2);
  }

  /**
   If the client of that call goes away, its task is cancelled and takes its safe state with
   it: the output is on under a latched stop, with nothing left that would turn it off.
   */
  lemma CancelledRevert()
    ensures exists st, next :: Breaks(st, RevertCancelled(0), next, 0) && next.estop && next.log == BOOT
                               && next.on == map[0 := {0}, 1 := {}] && next.leases == [] && next.calls == map[]
                               && next.late == map[]
  {
    hide At, Goes, Exposed, Accounted, Breaks;
    var st, next := Twice(Working({})), Halted({0}, 3, map[], FIRST, 3, BOOT, map[]);
    OvertakenTwice();
    RevertDies();
    TwiceIsWatched(st);
    Bare(next, 0);
    Broken(st, RevertCancelled(0), next, 0);
  }

  // ---- verdicts out of turn -----------------------------------------------------------------------

  const UNSAFE: seq<Verdict> := BOOT + [Verdict(0, 3, false)]

  lemma RevertFails()
    ensures Goes(Twice(Working({})), SafeReturn(2, 0, TimedOut), Twice(Returned(TimedOut)))
  {
    hide Shaped;
    var st, safe := Twice(Working({})), SafeState(map[0 := 3], map[0 := Returned(TimedOut)]);
    assert st.safes[2].progress[0 := Returned(TimedOut)] == safe.progress;
    assert st.safes[2 := safe] == Twice(Returned(TimedOut)).safes;
  }

  lemma RevertPublishes()
    ensures Goes(Twice(Returned(TimedOut)), SafePublish(2), Halted({0}, 3, map[0 := UNDOING], FIRST, 3, UNSAFE, map[]))
  {
    hide Shaped;
    var st := Twice(Returned(TimedOut));
    assert [0, 1][..1] == [0] && [0][..0] == [];
    assert Verdicts([0], st.safes[2]) == [Verdict(0, 3, false)];
    assert Verdicts([0, 1], st.safes[2]) == [Verdict(0, 3, false)];
    assert st.safes - {2} == FIRST;
  }

  lemma CallEnds()
    ensures Goes(Halted({0}, 3, map[0 := UNDOING], FIRST, 3, UNSAFE, map[]), RevertDone(0),
                 Halted({0}, 3, map[], FIRST, 3, UNSAFE, map[]))
  {
    hide Shaped;
    assert Left([], Named(0)) == [];
    assert map[0 := UNDOING] - {0} == map[];
  }

  lemma SlowDeviceDone()
    ensures At(Halted({0}, 3, map[], BOTH, 3, UNSAFE, map[]))
  {
    hide At, Goes, Halted, Stop, Twice;
    OvertakenTwice();
    RevertFails();
    Then(Twice(Working({})), SafeReturn(2, 0, TimedOut), Twice(Returned(TimedOut)));
    RevertPublishes();
    Then(Twice(Returned(TimedOut)), SafePublish(2), Halted({0}, 3, map[0 := UNDOING], FIRST, 3, UNSAFE, map[]));
    CallEnds();
    Then(Halted({0}, 3, map[0 := UNDOING], FIRST, 3, UNSAFE, map[]), RevertDone(0),
         Halted({0}, 3, map[], FIRST, 3, UNSAFE, map[]));
    SecondReturns({0}, 3, 3, UNSAFE, map[]);
    Then(Halted({0}, 3, map[], FIRST, 3, UNSAFE, map[]), SafeReturn(1, 1, FINE),
         Halted({0}, 3, map[], BOTH, 3, UNSAFE, map[]));
  }

  lemma OutOfTurn(st: State, next: State)
    requires st == Halted({0}, 3, map[], BOTH, 3, UNSAFE, map[])
    requires next == Halted({0}, 3, map[], map[], 3, UNSAFE + ALL_SAFE, map[])
    ensures LastIsNewest(st.log, 0) && !Orderly(st, SafePublish(1), 0)
    ensures LastLine(next.log, 0) == Some(Verdict(0, 2, true))
  {
    assert Verdict(0, 3, false) in st.log;
    assert next.log[..4] == UNSAFE + [Verdict(0, 2, true)];
    assert next.log[..4][3] == Verdict(0, 2, true);
    assert next.log[|next.log| - 1] == Verdict(1, 2, true);
  }

  /**
   An emergency stop over a quick and a slow device, and a call on the quick one that it
   overtook and whose own safe state timed out: the stop's verdict on the quick device is
   published out of turn, so its last line says safe while the output is on.
   */
  lemma LastVerdictMisleads()
    ensures exists st, next ::
              At(st) && At(next) && Shaped(st) && Enabled(st, SafePublish(1)) && Apply(st, SafePublish(1)) == next
              && LastIsNewest(st.log, 0) && !Orderly(st, SafePublish(1), 0)
              && LastLine(next.log, 0) == Some(Verdict(0, 2, true))
              && next.estop && next.calls == map[] && next.safes == map[] && next.on == map[0 := {0}, 1 := {}]
  {
    hide At, LastIsNewest, Orderly, LastLine, Enabled, Apply, Shaped;
    var st := Halted({0}, 3, map[], BOTH, 3, UNSAFE, map[]);
    var next := Halted({0}, 3, map[], map[], 3, UNSAFE + ALL_SAFE, map[]);
    SlowDeviceDone();
    AtInv(st);
    InvIsShaped(st);
    StopPublishes({0}, 3, 3, UNSAFE, map[]);
    Then(st, SafePublish(1), next);
    OutOfTurn(st, next);
  }
}
