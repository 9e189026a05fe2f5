/** `LeaseManager` of fielddeck/safety/leases.py and the ESTOP latch of fielddeck/safety/estop.py. */
module SafetyLeases {
  import opened Bytes
  import opened SafetyModel

  datatype LeaseError = BadTtl | NoSuchLease | NotHolder | Expired

  ghost predicate Distinct(leases: seq<Lease>)
  {
    forall i, j :: 0 <= i < j < |leases| ==> leases[i].id != leases[j].id
  }

  ghost predicate NoneMatch(leases: seq<Lease>, q: Query)
  {
    forall l :: l in leases ==> !Matches(q, l)
  }

  lemma {:induction false} PickAppend(a: seq<Lease>, b: seq<Lease>, q: Query)
    ensures Left(a + b, q) == Left(a, q) + Left(b, q)
    ensures Taken(a + b, q) == Taken(a, q) + Taken(b, q)
  {
    if b == [] {
      assert a + b == a;
    } else {
      var front, last := b[..|b| - 1], b[|b| - 1];
      LastSplit(b);
      PickAppend(a, front, q);
      Associate(a, front, [last]);
      TakenSnoc(a + front, last, q);
      TakenSnoc(front, last, q);
      Associate(Left(a, q), Left(front, q), if Matches(q, last) then [] else [last]);
      Associate(Taken(a, q), Taken(front, q), if Matches(q, last) then [last] else []);
    }
  }

  lemma {:induction false} PickNone(leases: seq<Lease>, q: Query)
    requires NoneMatch(leases, q)
    ensures Left(leases, q) == leases && Taken(leases, q) == []
  {
    if leases != [] {
      LastSplit(leases);
      PickNone(leases[..|leases| - 1], q);
    }
  }

  /** Popping a lease by its id takes that lease and no other. */
  lemma PopOne(a: seq<Lease>, l: Lease, b: seq<Lease>)
    requires forall m :: m in a || m in b ==> m.id != l.id
    ensures Left(a + [l] + b, Named(l.id)) == a + b
    ensures Taken(a + [l] + b, Named(l.id)) == [l]
  {
    var q := Named(l.id);
    PickNone(a, q);
    PickNone(b, q);
    TakenSnoc(a, l, q);
    PickAppend(a + [l], b, q);
    assert a + [] == a;
    assert [l] + [] == [l] && [] + [l] == [l];
  }

  lemma {:induction false} LeftDistinct(leases: seq<Lease>, q: Query)
    requires Distinct(leases)
    ensures Distinct(Left(leases, q))
  {
    if leases != [] {
      var front, last := leases[..|leases| - 1], leases[|leases| - 1];
      LeftDistinct(front, q);
      PickSplits(front, q);
      assert forall l :: l in Left(front, q) ==> l.id != last.id;
    }
  }

  /** A lease in a table with distinct ids is what its id finds. */
  lemma FindOne(leases: seq<Lease>, i: nat)
    requires Distinct(leases) && i < |leases|
    ensures Taken(leases, Named(leases[i].id)) == [leases[i]]
  {
    var a, l, b := leases[..i], leases[i], leases[i + 1..];
    Around(leases, i);
    forall m | m in a || m in b ensures m.id != l.id {
      if m in a {
        var j :| 0 <= j < |a| && a[j] == m;
        assert leases[j] == m;
      } else {
        var j :| 0 <= j < |b| && b[j] == m;
        assert leases[i + 1 + j] == m;
      }
    }
    hide *;
    PopOne(a, l, b);
  }

  lemma Around<T>(s: seq<T>, i: nat)
    requires i < |s|
    ensures s == s[..i] + [s[i]] + s[i + 1..]
    ensures s[i..] == [s[i]] + s[i + 1..] && s[..i + 1] == s[..i] + [s[i]]
  {}

  /**
   The leases in force, in the order they were acquired, told apart by their ids. Looking
   one up and popping one by its id are single operations of the source's dictionary.
   */
  class LeaseManager {
    var leases: seq<Lease>

    ghost predicate Valid()
      reads this
    {
      Distinct(leases)
    }

    constructor ()
      ensures Valid() && leases == []
    {
      leases := [];
    }

    method Acquire(id: LeaseId, device: Device, action: nat, connection: nat, ttl: int, now: int)
      returns (r: Result<Lease, LeaseError>)
      requires Valid() && NoneMatch(leases, Named(id))
      modifies this
      ensures Valid()
      ensures ttl <= 0 ==> r == Err(BadTtl) && leases == old(leases)
      ensures ttl > 0 ==> r == Ok(Lease(id, device, action, connection, now + ttl, ttl))
      ensures r.Ok? ==> leases == old(leases) + [r.value]
    {
      if ttl <= 0 {
        return Err(BadTtl);
      }
      var lease := Lease(id, device, action, connection, now + ttl, ttl);
      forall i | 0 <= i < |leases| ensures leases[i].id != id {
        assert leases[i] in leases;
      }
      leases := leases + [lease];
      r := Ok(lease);
    }

    /** Only the holder may renew, only a living lease, and never for longer than before. */
    method Renew(id: LeaseId, ttl: Option<int>, connection: Option<nat>, now: int)
      returns (r: Result<Lease, LeaseError>)
      requires Valid()
      modifies this
      ensures Valid()
      ensures r.Err? ==> leases == old(leases)
      ensures var found := Taken(old(leases), Named(id));
              r.Ok? <==>
                && found != [] && (connection.Some? ==> connection.value == found[0].connection)
                && found[0].Active(now) && (if ttl.Some? then ttl.value > 0 else found[0].ttl > 0)
      ensures r.Ok? ==>
                var l := Taken(old(leases), Named(id))[0];
                && r.value == Renewal(l, if ttl.Some? then ttl.value else l.ttl, now)
                && leases == Replace(old(leases), r.value)
                && r.value.ttl <= l.ttl && (l.expires <= now + l.ttl ==> r.value.expires <= now + l.ttl)
    {
      var found := Taken(leases, Named(id));
      if found == [] {
        return Err(NoSuchLease);
      }
      var lease := found[0];
      if connection.Some? && connection.value != lease.connection {
        return Err(NotHolder);
      }
      if now >= lease.expires {
        return Err(Expired);
      }
      var requested := if ttl.Some? then ttl.value else lease.ttl;
      if requested <= 0 {
        return Err(BadTtl);
      }
      r := Ok(Renewal(lease, requested, now));
      leases := Replace(leases, r.value);
    }

    method Release(id: LeaseId) returns (r: Option<Lease>)
      requires Valid()
      modifies this
      ensures Valid()
      ensures leases == Left(old(leases), Named(id))
      ensures var found := Taken(old(leases), Named(id));
              if found == [] then r == None && leases == old(leases) else r == Some(found[0]) && found == [found[0]]
    {
      var found := Taken(leases, Named(id));
      LeftDistinct(leases, Named(id));
      PickSplits(leases, Named(id));
      if found == [] {
        PickNone(leases, Named(id)) by {
          forall l | l in leases ensures !Matches(Named(id), l) {
            assert l !in found;
          }
        }
        return None;
      }
      assert found[0] in found;
      var i :| 0 <= i < |leases| && leases[i] == found[0];
      FindOne(leases, i);
      leases := Left(leases, Named(id));
      r := Some(found[0]);
    }

    /** Taking the leases that match out of the table, one dictionary item after the other. */
    method Sweep(now: int) returns (expired: seq<Lease>)
      requires Valid()
      modifies this
      ensures Valid()
      ensures expired == Taken(old(leases), ExpiredAt(now))
      ensures leases == Left(old(leases), ExpiredAt(now))
    {
      expired := TakeMatching(ExpiredAt(now));
    }

    method TakeForConnection(connection: nat) returns (taken: seq<Lease>)
      requires Valid()
      modifies this
      ensures Valid()
      ensures taken == Taken(old(leases), Connection(connection))
      ensures leases == Left(old(leases), Connection(connection))
    {
      taken := TakeMatching(Connection(connection));
    }

    method TakeMatching(q: Query) returns (taken: seq<Lease>)
      requires Valid()
      modifies this
      ensures Valid()
      ensures taken == Taken(old(leases), q) && leases == Left(old(leases), q)
    {
      hide Taken, Left;
      var items := leases;
      taken := [];
      LeftDistinct(items, q);
      NothingTaken(items, q);
      for i := 0 to |items|
        invariant taken == Taken(items[..i], q)
        invariant leases == Left(items[..i], q) + items[i..]
      {
        var lease := items[i];
        TakeStep(items, i, q);
        if Matches(q, lease) {
          taken := taken + [lease];
          PopMiddle(items, i, q);
          leases := Left(leases, Named(lease.id));
        }
      }
      assert items[..|items|] == items;
      assert leases == Left(items, q) + [];
    }

    /** Used by ESTOP. */
    method TakeAll() returns (taken: seq<Lease>)
      requires Valid()
      modifies this
      ensures Valid() && taken == old(leases) && leases == []
    {
      taken := leases;
      leases := [];
    }

    /** The release half of an output-off action: every active lease of this device and action. */
    method ReleaseOutput(device: Device, action: nat, now: int) returns (any: bool)
      requires Valid()
      modifies this
      ensures Valid()
      ensures any <==> Taken(old(leases), OutputOf(device, action, now)) != []
      ensures leases == Left(old(leases), OutputOf(device, action, now))
    {
      var released := TakeMatching(OutputOf(device, action, now));
      any := released != [];
    }
  }

  lemma TakeStep(items: seq<Lease>, i: nat, q: Query)
    requires i < |items|
    ensures Taken(items[..i + 1], q) == Taken(items[..i], q) + (if Matches(q, items[i]) then [items[i]] else [])
    ensures Left(items[..i + 1], q) + items[i + 1..] ==
            Left(items[..i], q) + (if Matches(q, items[i]) then items[i + 1..] else items[i..])
  {
    hide Taken, Left, Matches;
    Around(items, i);
    TakenSnoc(items[..i], items[i], q);
    var a, rest := Left(items[..i], q), items[i + 1..];
    Associate(a, [items[i]], rest);
    assert a + [] == a;
  }

  lemma NothingTaken(items: seq<Lease>, q: Query)
    ensures Taken(items[..0], q) == [] && Left(items[..0], q) + items[0..] == items
  {}

  /** Popping the item being looked at, while earlier matches are already gone. */
  lemma PopMiddle(items: seq<Lease>, i: nat, q: Query)
    requires Distinct(items) && i < |items|
    ensures Left(Left(items[..i], q) + items[i..], Named(items[i].id)) == Left(items[..i], q) + items[i + 1..]
  {
    var a, b := Left(items[..i], q), items[i + 1..];
    PickSplits(items[..i], q);
    Around(items, i);
    forall m | m in a || m in b ensures m.id != items[i].id {
      if m in b {
        var j :| 0 <= j < |b| && b[j] == m;
        assert items[i + 1 + j] == m;
      } else {
        var j :| 0 <= j < i && items[j] == m;
      }
    }
    hide *;
    Associate(a, [items[i]], b);
    PopOne(a, items[i], b);
  }

  // ---- the emergency-stop latch -------------------------------------------------------------

  datatype Status = Status(active: bool, reason: string)

  /** Latched until a person acknowledges it. */
  class EstopController {
    var status: Status

    constructor ()
      ensures !status.active
    {
      status := Status(false, "");
    }

    /** The first reason is the one that sticks. */
    method Engage(reason: string)
      modifies this
      ensures status == if old(status).active then old(status) else Status(true, reason)
    {
      if status.active {
        return;
      }
      status := Status(true, reason);
    }

    /** Clears the latch for a source that may create grants, and for no other. */
    method Acknowledge(mayCreateGrants: bool) returns (ok: bool)
      modifies this
      ensures ok == mayCreateGrants
      ensures if ok then status == Status(false, "") else status == old(status)
    {
      if !mayCreateGrants {
        return false;
      }
      status := Status(false, "");
      ok := true;
    }
  }
}
