/** The lossy half of fielddeck/daemon/events.py: bounded subscriptions that count what they drop. */
module Events {
  import opened Bytes

  type EventType = nat

  datatype Event = Event(kind: EventType, session: Option<nat>, body: nat)

  /** A subscription's fields, as a value. */
  datatype Box = Box(
    maxsize: int, types: Option<set<EventType>>, session: Option<nat>,
    closed: bool, queue: seq<Event>, dropped: nat)
  {
    predicate Wants(e: Event)
    {
      && (types.Some? ==> e.kind in types.value)
      && (session.Some? ==> e.session == session)
    }

    /** `asyncio.Queue.full`: a queue without a positive bound is never full. */
    predicate Full()
    {
      maxsize > 0 && |queue| >= maxsize
    }
  }

  function Offered(b: Box, e: Event): Box
  {
    if b.closed || !b.Wants(e) then b
    else if !b.Full() then b.(queue := b.queue + [e])
    else b.(queue := (if b.queue == [] then [] else b.queue[1..]) + [e], dropped := b.dropped + 1)
  }

  // ---- the objects --------------------------------------------------------------------------

  class Subscription {
    const maxsize: int
    const types: Option<set<EventType>>
    const session: Option<nat>
    var closed: bool
    var queue: seq<Event>
    var dropped: nat

    constructor (maxsize: int, types: Option<set<EventType>>, session: Option<nat>)
      ensures View() == Box(maxsize, if types == Some({}) then None else types, session, false, [], 0)
    {
      this.maxsize, this.session := maxsize, session;
      this.types := if types == Some({}) then None else types;
      closed, queue, dropped := false, [], 0;
    }

    function View(): Box
      reads this
    {
      Box(maxsize, types, session, closed, queue, dropped)
    }

    /** Never blocks; drops the oldest event when the consumer lags. */
    method Offer(e: Event)
      requires Bounded(View())
      modifies this
      ensures View() == Offered(old(View()), e) && Bounded(View())
    {
      if closed || !View().Wants(e) {
        return;
      }
      var taken := Put(e);
      if !taken {
        if queue != [] {
          queue := queue[1..];
          dropped := dropped + 1;
        }
        // The queue stays within its bound, so the second attempt cannot be refused.
        taken := Put(e);
        assert taken;
      }
    }

    /** `put_nowait`; false stands for QueueFull. */
    method Put(e: Event) returns (ok: bool)
      modifies `queue
      ensures ok == !old(View()).Full()
      ensures queue == if ok then old(queue) + [e] else old(queue)
    {
      ok := !(maxsize > 0 && |queue| >= maxsize);
      if ok {
        queue := queue + [e];
      }
    }

    /** `get`, once there is something to get. */
    method Get() returns (e: Event)
      requires queue != []
      modifies `queue
      ensures [e] + queue == old(queue)
    {
      e := queue[0];
      queue := queue[1..];
    }
  }

  class EventBus {
    const history: nat
    var subscriptions: seq<Subscription>
    var recent: seq<Event>
    var published: nat

    constructor (history: nat)
      ensures this.history == history && subscriptions == [] && recent == [] && published == 0
    {
      this.history := history;
      subscriptions, recent, published := [], [], 0;
    }

    ghost predicate Valid()
      reads this, subscriptions
    {
      && (forall i, j :: 0 <= i < j < |subscriptions| ==> subscriptions[i] != subscriptions[j])
      && (forall s :: s in subscriptions ==> Bounded(s.View()))
      && |recent| <= history
    }

    /** Every subscription is offered the event once, and the history keeps the newest. */
    method Publish(e: Event)
      requires Valid()
      modifies this, subscriptions
      ensures Valid() && subscriptions == old(subscriptions)
      ensures published == old(published) + 1
      ensures recent == Newest(old(recent) + [e], history)
      ensures forall s :: s in subscriptions ==> s.View() == Offered(old(s.View()), e)
    {
      hide Newest, Offered, Bounded;
      recent := Newest(recent + [e], history);
      published := published + 1;
      var all := subscriptions;
      for i := 0 to |all|
        invariant all == subscriptions == old(subscriptions)
        invariant recent == Newest(old(recent) + [e], history) && published == old(published) + 1
        invariant forall k :: 0 <= k < i ==> all[k].View() == Offered(old(all[k].View()), e)
        invariant forall k :: i <= k < |all| ==> all[k].View() == old(all[k].View())
        invariant forall k :: 0 <= k < |all| ==> Bounded(all[k].View())
      {
        all[i].Offer(e);
      }
    }

    method Subscribe(maxsize: int, types: Option<set<EventType>>, session: Option<nat>) returns (s: Subscription)
      requires Valid()
      modifies this
      ensures Valid() && fresh(s) && subscriptions == old(subscriptions) + [s]
      ensures s.View() == Box(maxsize, if types == Some({}) then None else types, session, false, [], 0)
      ensures recent == old(recent) && published == old(published)
    {
      s := new Subscription(maxsize, types, session);
      subscriptions := subscriptions + [s];
    }

    /** Closing a subscription: it takes no more events, and the bus forgets it. */
    method Close(s: Subscription)
      requires Valid()
      modifies this, s
      ensures Valid() && s !in subscriptions
      ensures s.View() == old(s.View()).(closed := true)
      ensures forall t :: t != s ==> (t in subscriptions <==> t in old(subscriptions))
      ensures recent == old(recent) && published == old(published)
    {
      s.closed := true;
      if i :| 0 <= i < |subscriptions| && subscriptions[i] == s {
        subscriptions := subscriptions[..i] + subscriptions[i + 1..];
      }
    }
  }

  /** What a deque of this length keeps. */
  function Newest(events: seq<Event>, n: nat): (r: seq<Event>)
    ensures |r| <= n
  {
    if |events| <= n then events else events[|events| - n..]
  }

  // ---- runs -----------------------------------------------------------------------------------

  /** What happens to an open subscription: events published, and events its consumer takes. */
  datatype Op = Publish(event: Event) | Take

  datatype Run = Run(box: Box, delivered: seq<Event>)

  function Do(r: Run, op: Op): Run
  {
    match op
    case Publish(e) => r.(box := Offered(r.box, e))
    case Take =>
      if r.box.queue == [] then r
      else Run(r.box.(queue := r.box.queue[1..]), r.delivered + [r.box.queue[0]])
  }

  function After(start: Box, ops: seq<Op>): Run
  {
    if ops == [] then Run(start, []) else Do(After(start, ops[..|ops| - 1]), ops[|ops| - 1])
  }

  /** The published events this subscription asked for. */
  function Wanted(start: Box, ops: seq<Op>): seq<Event>
  {
    if ops == [] then [] else
      var op := ops[|ops| - 1];
      Wanted(start, ops[..|ops| - 1]) + (if op.Publish? && start.Wants(op.event) then [op.event] else [])
  }

  ghost predicate Subsequence(a: seq<Event>, b: seq<Event>)
  {
    if a == [] then true
    else if b == [] then false
    else if a[|a| - 1] == b[|b| - 1] && Subsequence(a[..|a| - 1], b[..|b| - 1]) then true
    else Subsequence(a, b[..|b| - 1])
  }

  ghost predicate Suffix(a: seq<Event>, b: seq<Event>)
  {
    |a| <= |b| && b[|b| - |a|..] == a
  }

  ghost predicate Bounded(b: Box)
  {
    b.maxsize > 0 ==> |b.queue| <= b.maxsize
  }

  predicate Opened(b: Box)
  {
    !b.closed && b.queue == [] && b.dropped == 0
  }

  lemma SubsequenceSnoc(a: seq<Event>, b: seq<Event>, e: Event)
    requires Subsequence(a, b)
    ensures Subsequence(a + [e], b + [e]) && Subsequence(a, b + [e])
  {
    assert (a + [e])[..|a|] == a && (b + [e])[..|b|] == b;
  }

  /** Dropping one element from the middle leaves a subsequence of the same list. */
  lemma {:induction false} SubsequenceDrop(a: seq<Event>, e: Event, c: seq<Event>, b: seq<Event>)
    requires Subsequence(a + [e] + c, b)
    ensures Subsequence(a + c, b)
    decreases |b|
  {
    var whole := a + [e] + c;
    var front := b[..|b| - 1];
    if whole[|whole| - 1] == b[|b| - 1] && Subsequence(whole[..|whole| - 1], front) {
      if c == [] {
        assert whole[..|whole| - 1] == a && a + c == a;
        LastSplit(b);
        SubsequenceSnoc(a, front, b[|b| - 1]);
      } else {
        assert whole[..|whole| - 1] == a + [e] + c[..|c| - 1];
        SubsequenceDrop(a, e, c[..|c| - 1], front);
        assert a + c == (a + c[..|c| - 1]) + [c[|c| - 1]];
        LastSplit(b);
        SubsequenceSnoc(a + c[..|c| - 1], front, b[|b| - 1]);
      }
    } else {
      SubsequenceDrop(a, e, c, front);
      LastSplit(b);
      SubsequenceSnoc(a + c, front, b[|b| - 1]);
    }
  }

  /** What a run of an open subscription never loses sight of. */
  ghost predicate Accounted(r: Run, start: Box, wanted: seq<Event>)
  {
    && r.box == start.(queue := r.box.queue, dropped := r.box.dropped)
    && Bounded(r.box)
    && Suffix(r.box.queue, wanted)
    && Subsequence(r.delivered + r.box.queue, wanted)
    && |wanted| == |r.delivered| + |r.box.queue| + r.box.dropped
    && (start.maxsize <= 0 ==> r.box.dropped == 0 && r.delivered + r.box.queue == wanted)
  }

  lemma SuffixMoves(q: seq<Event>, wanted: seq<Event>, e: Event)
    requires Suffix(q, wanted)
    ensures Suffix(q + [e], wanted + [e])
    ensures q != [] ==> Suffix(q[1..] + [e], wanted + [e])
  {
    assert (wanted + [e])[|wanted| - |q|..] == q + [e];
    if q != [] { assert (wanted + [e])[|wanted| - |q| + 1..] == q[1..] + [e]; }
  }

  /** The new event goes in, and at most the oldest queued one goes out. */
  lemma OrderKept(d: seq<Event>, q: seq<Event>, wanted: seq<Event>, e: Event)
    requires Subsequence(d + q, wanted)
    ensures Subsequence(d + (q + [e]), wanted + [e])
    ensures q != [] ==> Subsequence(d + (q[1..] + [e]), wanted + [e])
  {
    hide Subsequence;
    SubsequenceSnoc(d + q, wanted, e);
    Associate(d, q, [e]);
    if q != [] {
      var rest := q[1..] + [e];
      Reassociate(d, q, e);
      SubsequenceDrop(d, q[0], rest, wanted + [e]);
    }
  }

  lemma Reassociate(d: seq<Event>, q: seq<Event>, e: Event)
    requires q != []
    ensures d + q + [e] == d + [q[0]] + (q[1..] + [e])
  {}

  lemma OfferAccounts(r: Run, start: Box, wanted: seq<Event>, e: Event)
    requires Opened(start) && Accounted(r, start, wanted)
    ensures Accounted(Do(r, Publish(e)), start, wanted + (if start.Wants(e) then [e] else []))
  {
    hide Subsequence, Suffix;
    assert wanted + [] == wanted;
    if start.Wants(e) {
      SuffixMoves(r.box.queue, wanted, e);
      OrderKept(r.delivered, r.box.queue, wanted, e);
      Associate(r.delivered, r.box.queue, [e]);
    }
  }

  lemma TakeAccounts(r: Run, start: Box, wanted: seq<Event>)
    requires Accounted(r, start, wanted)
    ensures Accounted(Do(r, Take), start, wanted)
  {
    hide Subsequence;
    var q := r.box.queue;
    if q != [] {
      assert r.delivered + [q[0]] + q[1..] == r.delivered + q;
      assert wanted[|wanted| - |q| + 1..] == q[1..];
    }
  }

  /**
   After any run of publishes and gets: the queue is a suffix of what was wanted, what was
   delivered and is queued is a subsequence of it in order, and every wanted event was
   delivered, is queued or is counted as dropped. Without a bound nothing is dropped.
   */
  lemma {:induction false} EveryEventAccountedFor(start: Box, ops: seq<Op>)
    requires Opened(start)
    ensures Accounted(After(start, ops), start, Wanted(start, ops))
  {
    hide Accounted;
    if ops == [] {
      NothingYet(start);
    } else {
      var front, op := ops[..|ops| - 1], ops[|ops| - 1];
      EveryEventAccountedFor(start, front);
      match op
      case Publish(e) => OfferAccounts(After(start, front), start, Wanted(start, front), e);
      case Take =>
        TakeAccounts(After(start, front), start, Wanted(start, front));
        assert Wanted(start, front) + [] == Wanted(start, front);
    }
  }

  lemma NothingYet(start: Box)
    requires Opened(start)
    ensures Accounted(Run(start, []), start, [])
  {}

  // ---- in terms of the events' own fields -----------------------------------------------------

  /** An event the subscription asked for is counted as often as it was published, any other not at all. */
  lemma {:induction false} WantedCounts(start: Box, ops: seq<Op>, e: Event)
    ensures multiset(Wanted(start, ops))[e] ==
            if (start.types == None || e.kind in start.types.value)
               && (start.session == None || e.session == start.session)
            then multiset(ops)[Publish(e)] else 0
  {
    if ops != [] {
      var front, op := ops[..|ops| - 1], ops[|ops| - 1];
      WantedCounts(start, front, e);
      LastSplit(ops);
      assert multiset(ops) == multiset(front) + multiset{op};
      var added := if op.Publish? && start.Wants(op.event) then [op.event] else [];
      assert multiset(Wanted(start, ops)) == multiset(Wanted(start, front)) + multiset(added);
    }
  }

  lemma {:induction false} SubsequenceMembers(a: seq<Event>, b: seq<Event>, e: Event)
    requires Subsequence(a, b) && e in a
    ensures e in b
    decreases |b|
  {
    LastSplit(a);
    LastSplit(b);
    var front := b[..|b| - 1];
    if a[|a| - 1] == b[|b| - 1] && Subsequence(a[..|a| - 1], front) {
      if e != a[|a| - 1] { SubsequenceMembers(a[..|a| - 1], front, e); }
    } else {
      SubsequenceMembers(a, front, e);
    }
  }

  /** Nothing is delivered or queued but published events of the kinds and the session asked for. */
  lemma {:induction false} OnlyWantedArrive(start: Box, ops: seq<Op>, e: Event)
    requires Opened(start)
    requires e in After(start, ops).delivered || e in After(start, ops).box.queue
    ensures Publish(e) in ops
    ensures start.types.Some? ==> e.kind in start.types.value
    ensures start.session.Some? ==> e.session == start.session
  {
    var r, wanted := After(start, ops), Wanted(start, ops);
    EveryEventAccountedFor(start, ops);
    SubsequenceMembers(r.delivered + r.box.queue, wanted, e);
    assert e in multiset(wanted);
    WantedCounts(start, ops, e);
    assert Publish(e) in multiset(ops);
  }

  /** An offer is dropped into a full queue at the cost of its oldest event, and only there. */
  lemma {:induction false} DropsWhenFull(start: Box, ops: seq<Op>, e: Event)
    requires Opened(start)
    ensures var r, next := After(start, ops), After(start, ops + [Publish(e)]);
            var wants := (start.types == None || e.kind in start.types.value)
                         && (start.session == None || e.session == start.session);
            && next.delivered == r.delivered
            && next.box.dropped == r.box.dropped + (if wants && |r.box.queue| == start.maxsize > 0 then 1 else 0)
            && (wants && !(|r.box.queue| == start.maxsize > 0) ==> next.box.queue == r.box.queue + [e])
            && (!wants ==> next.box.queue == r.box.queue)
  {
    EveryEventAccountedFor(start, ops);
    assert (ops + [Publish(e)])[..|ops|] == ops;
  }

  /** The history is the latest of the published events, and only `n` of them. */
  lemma {:induction false} NewestMeans(events: seq<Event>, n: nat)
    ensures Suffix(Newest(events, n), events)
    ensures |Newest(events, n)| == if |events| < n then |events| else n
  {}
}
