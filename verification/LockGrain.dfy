/** The lock actor as the object it is: fields reassigned by its methods, and a list shortened in place. */
module LockGrain {
  import opened Common
  import opened Domain
  import opened GrainModel

  /** The growable array behind the grain's list of accesses. */
  class AccessList {
    var items: array<Entry>
    var count: nat

    ghost predicate Valid()
      reads this
    {
      count <= items.Length
    }

    ghost function Contents(): seq<Entry>
      requires Valid()
      reads this, items
    {
      items[..count]
    }

    constructor (capacity: nat)
      ensures Valid() && Contents() == [] && fresh(items)
    {
      items := new Entry[capacity];
      count := 0;
    }

    /** Append, doubling a full array. */
    method Add(e: Entry)
      requires Valid()
      modifies this, items
      ensures Valid() && (items == old(items) || fresh(items))
      ensures Contents() == old(Contents()) + [e]
    {
      if count == items.Length {
        var larger := new Entry[if items.Length == 0 then 4 else 2 * items.Length];
        for i := 0 to count
          invariant count == old(count) && items == old(items) && count <= larger.Length
          invariant larger[..i] == items[..i]
          invariant items[..count] == old(Contents())
        {
          larger[i] := items[i];
        }
        items := larger;
      }
      items[count] := e;
      count := count + 1;
    }

    /** Drop the first `n` elements by moving the others to the front. */
    method RemoveFront(n: nat)
      requires Valid() && n <= count
      modifies this, items
      ensures Valid() && items == old(items)
      ensures Contents() == old(Contents())[n..]
    {
      var a, rest := items, count - n;
      ghost var was := a[..];
      for i := 0 to rest
        invariant items == a && count == old(count)
        invariant a[..i] == was[n..n + i] && a[i..] == was[i..]
      {
        assert a[i..][n] == was[i..][n];
        a[i] := a[n + i];
      }
      count := rest;
    }

    method Take(n: nat) returns (front: seq<Entry>)
      requires Valid() && n <= count
      ensures front == Contents()[..n]
    {
      front := items[..n];
    }
  }

  /** The connector, as the messages handed to it. */
  class Connector {
    var sent: seq<Message>

    constructor ()
      ensures sent == []
    {
      sent := [];
    }

    method SendMessage(topic: string, result: AccessResult)
      modifies this
      ensures sent == old(sent) + [Message(topic, result)]
    {
      sent := sent + [Message(topic, result)];
    }
  }

  /** The history table of the database. */
  class HistoryTable {
    var rows: seq<Entry>

    constructor ()
      ensures rows == []
    {
      rows := [];
    }

    /** All or nothing; the store's decision is an input. */
    method SaveChanges(batch: seq<Entry>, commits: bool)
      modifies this
      ensures rows == old(rows) + (if commits then batch else [])
    {
      if commits {
        rows := rows + batch;
      }
    }
  }

  datatype Arrival = Arrival(requester: Option<string>, roles: seq<string>, employee: Option<string>, now: int)

  /** How a save ends: the store may commit or not, and the caller may be told of a failure either way. */
  datatype SaveEnd = Returns | Throws(committed: bool)

  /** The grain after a list of requests, oldest first. */
  function RequestedAll(g: GrainState, arrivals: seq<Arrival>): GrainState {
    if arrivals == [] then g
    else
      var a := Last(arrivals);
      Requested(RequestedAll(g, Front(arrivals)), a.requester, a.roles, a.employee, a.now)
  }

  /** The grain without the first `n` entries of its list. */
  function Dropped(g: GrainState, n: nat): GrainState
    requires n <= |g.accesses|
  {
    g.(accesses := g.accesses[n..])
  }

  /** Requests only append, so dropping from the front commutes with them. */
  lemma {:induction false} RequestsAppend(g: GrainState, n: nat, arrivals: seq<Arrival>)
    requires n <= |g.accesses|
    ensures g.accesses <= RequestedAll(g, arrivals).accesses
    ensures RequestedAll(g, arrivals).cached == g.cached
    ensures Dropped(RequestedAll(g, arrivals), n) == RequestedAll(Dropped(g, n), arrivals)
  {
    if arrivals != [] {
      RequestsAppend(g, n, Front(arrivals));
      var earlier, later := RequestedAll(g, Front(arrivals)).accesses, RequestedAll(g, arrivals).accesses;
      assert later[n..] == earlier[n..] + later[|earlier|..];
    }
  }

  /** A suspended flush does not change what requests do. */
  lemma {:induction false} PendingIsKept(g: GrainState, pending: Option<nat>, arrivals: seq<Arrival>)
    ensures RequestedAll(g.(pending := pending), arrivals) == RequestedAll(g, arrivals).(pending := pending)
  {
    if arrivals != [] {
      PendingIsKept(g, pending, Front(arrivals));
    }
  }

  /** Start, arrivals, removal: only the arrivals are left. Start, arrivals, fault: everything is left. */
  lemma {:induction false} ArrivalsDuringAFlush(g: GrainState, arrivals: seq<Arrival>)
    requires g.accesses != [] && g.pending == None
    ensures FlushResumed(RequestedAll(FlushStarted(g), arrivals)) == RequestedAll(g.(accesses := []), arrivals)
    ensures FlushFaulted(RequestedAll(FlushStarted(g), arrivals)) == RequestedAll(g, arrivals)
  {
    var n := |g.accesses|;
    RequestsAppend(g, n, arrivals);
    PendingIsKept(g, Some(n), arrivals);
    PendingIsKept(g, None, arrivals);
    PendingIsKept(g.(accesses := []), None, arrivals);
    assert Dropped(g, n) == g.(accesses := []);
    assert g.(pending := None) == g;
    assert FlushStarted(g) == g.(pending := Some(n));
  }

  class LockGrain {
    const key: string
    const accesses: AccessList
    const connector: Connector
    var cached: Option<Lock>
    var hasTimer: bool
    var suspended: Option<nat>

    ghost predicate Valid()
      reads this, accesses
    {
      && accesses.Valid()
      && (suspended.Some? ==> suspended.value <= accesses.count)
      && hasTimer == cached.Some?
    }

    ghost function View(): GrainState
      requires Valid()
      reads this, accesses, accesses.items
    {
      GrainState(cached, accesses.Contents(), suspended)
    }

    constructor (key: string, connector: Connector)
      ensures Valid() && fresh(accesses) && fresh(accesses.items)
      ensures this.key == key && this.connector == connector
      ensures View() == GrainState(None, [], None)
    {
      this.key := key;
      this.connector := connector;
      accesses := new AccessList(50);
      cached := None;
      hasTimer := false;
      suspended := None;
    }

    /** Load the lock; only an existing one gets a timer. */
    method OnActivate(locks: Locks)
      requires Valid() && View() == GrainState(None, [], None)
      modifies this
      ensures Valid() && View() == Activated(locks, key)
      ensures cached == if key in locks then Some(Lock(key, locks[key])) else None
      ensures hasTimer <==> key in locks
    {
      cached := FindLock(locks, key);
      if cached.Some? {
        hasTimer := true;
      }
    }

    method RequestAccess(requester: Option<string>, roles: seq<string>, employee: Option<string>, now: int)
      returns (result: AccessResult)
      requires Valid()
      modifies accesses, accesses.items, connector
      ensures Valid() && (accesses.items == old(accesses.items) || fresh(accesses.items))
      ensures View() == Requested(old(View()), requester, roles, employee, now)
      ensures result == Answer(old(View()), roles)
      ensures connector.sent == old(connector.sent) + Outgoing(old(View()), roles)
    {
      if cached.None? {
        return Denied;
      }
      result := Decide(cached.value, roles);
      accesses.Add(Entry(cached.value.id, now, result, requester, employee));
      connector.SendMessage(cached.value.id, result);
    }

    /** The flush up to its await: the batch for the store, empty when there is nothing to save. */
    method StartSave() returns (batch: seq<Entry>)
      requires Valid() && hasTimer && suspended.None?
      modifies this
      ensures Valid() && View() == FlushStarted(old(View()))
      ensures batch == old(View()).accesses
    {
      if accesses.count == 0 {
        return [];
      }
      suspended := Some(accesses.count);
      batch := accesses.Take(accesses.count);
    }

    /** The flush after a save that returned. */
    method ResumeSave()
      requires Valid() && suspended.Some?
      modifies this, accesses, accesses.items
      ensures Valid() && accesses.items == old(accesses.items)
      ensures View() == FlushResumed(old(View()))
    {
      accesses.RemoveFront(suspended.value);
      suspended := None;
    }

    /** The flush after a save that threw. */
    method FaultSave()
      requires Valid() && suspended.Some?
      modifies this
      ensures Valid() && View() == FlushFaulted(old(View()))
    {
      suspended := None;
    }

    /**
     * One timer callback from start to end, with requests arriving while it waits for the store: a save
     * that returns moves exactly the entries present at the start to the table and leaves exactly the
     * arrivals; a save that throws leaves everything in the list.
     */
    method SaveLockAccess(table: HistoryTable, arrivals: seq<Arrival>, end: SaveEnd)
      requires Valid() && hasTimer && suspended.None?
      modifies this, accesses, accesses.items, connector, table
      ensures Valid()
      ensures table.rows == old(table.rows) +
              (if end.Returns? || end.committed then old(View()).accesses else [])
      ensures View() == RequestedAll(
                if end.Returns? then old(View()).(accesses := []) else old(View()), arrivals)
    {
      ghost var before := View();
      var batch := StartSave();
      ghost var started := View();
      for i := 0 to |arrivals|
        invariant Valid() && suspended == started.pending && hasTimer && table.rows == old(table.rows)
        invariant accesses.items == old(accesses.items) || fresh(accesses.items)
        invariant View() == RequestedAll(started, arrivals[..i])
      {
        var a := arrivals[i];
        assert Front(arrivals[..i + 1]) == arrivals[..i];
        var _ := RequestAccess(a.requester, a.roles, a.employee, a.now);
      }
      assert arrivals[..|arrivals|] == arrivals;
      if before.accesses == [] {
        assert before.(accesses := []) == before;
      } else {
        ArrivalsDuringAFlush(before, arrivals);
      }
      if batch != [] {
        table.SaveChanges(batch, end.Returns? || end.committed);
        if end.Returns? {
          ResumeSave();
        } else {
          FaultSave();
        }
      }
    }
  }
}
