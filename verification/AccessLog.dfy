/**
 * Many lock actors over one access-history table, as a step system: every interleaving of requests,
 * timer ticks, store commits, save completions and failures, and deactivations is a run.
 */
module AccessLog {
  import opened Common
  import opened Domain
  import opened GrainModel

  /** A save handed to the store: the batch, and whether its transaction has committed. */
  datatype Flight = NoFlight | Flight(batch: seq<Entry>, committed: bool)

  datatype Activation = Activation(grain: GrainState, flight: Flight)

  datatype State = State(
    locks: Locks,
    users: set<string>,
    table: seq<Entry>,
    live: map<string, Activation>,
    sent: seq<Message>)

  datatype Step =
    | EditLock(id: string, roles: seq<string>)
    | AddUser(user: string)
    | Activate(id: string)
    | Request(id: string, requester: Option<string>, roles: seq<string>, employee: Option<string>, now: int)
    | Tick(id: string)
    | Commit(id: string)
    | SaveReturned(id: string)
    | SaveFailed(id: string)
    | Deactivate(id: string)

  /** The table's key rules: lock and requester are required, and every reference must resolve. */
  predicate Acceptable(s: State, e: Entry) {
    && e.lockId in s.locks
    && e.requester.Some? && e.requester.value in s.users
    && (e.employee.Some? ==> e.employee.value in s.users)
  }

  predicate Enabled(s: State, step: Step) {
    match step
    case EditLock(_, _) => true
    case AddUser(_) => true
    case Activate(id) => id !in s.live
    case Request(id, _, _, _, _) => id in s.live
    case Tick(id) => id in s.live && s.live[id].flight.NoFlight? && s.live[id].grain.cached.Some?
    case Commit(id) =>
      && id in s.live && s.live[id].flight.Flight? && !s.live[id].flight.committed
      && forall e :: e in s.live[id].flight.batch ==> Acceptable(s, e)
    case SaveReturned(id) => id in s.live && s.live[id].flight.Flight? && s.live[id].flight.committed
    case SaveFailed(id) => id in s.live && s.live[id].flight.Flight?
    case Deactivate(id) => id in s.live
  }

  function Next(s: State, step: Step): State
    requires Enabled(s, step)
  {
    match step
    case EditLock(id, roles) => s.(locks := s.locks[id := roles])
    case AddUser(user) => s.(users := s.users + {user})
    case Activate(id) => s.(live := s.live[id := Activation(Activated(s.locks, id), NoFlight)])
    case Request(id, requester, roles, employee, now) =>
      var a := s.live[id];
      s.(live := s.live[id := a.(grain := Requested(a.grain, requester, roles, employee, now))],
         sent := s.sent + Outgoing(a.grain, roles))
    case Tick(id) =>
      var a := s.live[id];
      var flight := if a.grain.accesses == [] then NoFlight else Flight(a.grain.accesses, false);
      s.(live := s.live[id := Activation(FlushStarted(a.grain), flight)])
    case Commit(id) =>
      var a := s.live[id];
      s.(live := s.live[id := a.(flight := a.flight.(committed := true))],
         table := s.table + a.flight.batch)
    case SaveReturned(id) =>
      s.(live := s.live[id := Activation(FlushResumed(s.live[id].grain), NoFlight)])
    case SaveFailed(id) =>
      s.(live := s.live[id := Activation(FlushFaulted(s.live[id].grain), NoFlight)])
    case Deactivate(id) => s.(live := s.live - {id})
  }

  predicate IsRun(s: State, run: seq<Step>)
    decreases |run|, 0
  {
    run == [] || (IsRun(s, Front(run)) && Enabled(Exec(s, Front(run)), Last(run)))
  }

  function Exec(s: State, run: seq<Step>): State
    requires IsRun(s, run)
    decreases |run|, 1
  {
    if run == [] then s else Next(Exec(s, Front(run)), Last(run))
  }

  /** Running one part after another is running the whole. */
  lemma {:induction false} ExecConcat(s: State, a: seq<Step>, b: seq<Step>)
    requires IsRun(s, a)
    ensures IsRun(s, a + b) <==> IsRun(Exec(s, a), b)
    ensures IsRun(s, a + b) ==> Exec(s, a + b) == Exec(Exec(s, a), b)
  {
    if b == [] {
      assert a + b == a;
    } else {
      ExecConcat(s, a, Front(b));
      assert Front(a + b) == a + Front(b);
    }
  }

  lemma {:induction false} OneMoreStep(s: State, run: seq<Step>, step: Step)
    requires IsRun(s, run) && Enabled(Exec(s, run), step)
    ensures IsRun(s, run + [step]) && Exec(s, run + [step]) == Next(Exec(s, run), step)
  {
    FrontOfAppend(run, step);
  }

  // ------------------------------------------------------------------------------------------
  // What every step keeps of one activation, seen from the state alone

  /** The flush discipline of one activation: the batch in flight is the front of the list. */
  predicate FlushOk(s: State, id: string, a: Activation) {
    && (a.grain.cached.Some? ==> a.grain.cached.value.id == id && id in s.locks)
    && (a.grain.cached.None? ==> a.grain.accesses == [])
    && (forall e :: e in a.grain.accesses ==> e.lockId == id)
    && (match a.flight
        case NoFlight => a.grain.pending == None
        case Flight(batch, committed) =>
          && batch != [] && batch <= a.grain.accesses
          && a.grain.pending == Some(|batch|)
          && (committed ==> forall e :: e in batch ==> Acceptable(s, e)))
  }

  ghost predicate Sane(s: State) {
    forall id :: id in s.live ==> FlushOk(s, id, s.live[id])
  }

  lemma {:induction false} NextIsSane(s: State, step: Step)
    requires Sane(s) && Enabled(s, step)
    ensures Sane(Next(s, step))
  {
    var t := Next(s, step);
    forall id | id in t.live
      ensures FlushOk(t, id, t.live[id])
    {
      if id in s.live {
        assert FlushOk(s, id, s.live[id]);
        StepKeepsFlush(s, step, id);
      }
    }
  }

  lemma {:induction false} StepKeepsFlush(s: State, step: Step, id: string)
    requires Enabled(s, step) && id in s.live && FlushOk(s, id, s.live[id]) && id in Next(s, step).live
    ensures FlushOk(Next(s, step), id, Next(s, step).live[id])
  {
    if step.Request? && step.id == id {
      var a := s.live[id];
      var after := Requested(a.grain, step.requester, step.roles, step.employee, step.now).accesses;
      if a.flight.Flight? {
        PrefixOfAppend(a.flight.batch, a.grain.accesses, after[|a.grain.accesses|..]);
        assert after == a.grain.accesses + after[|a.grain.accesses|..];
      }
    }
  }

  /** In every run the batch in flight stays the front of its list, and the count stays within it. */
  lemma {:induction false} RunIsSane(s: State, run: seq<Step>)
    requires Sane(s) && IsRun(s, run)
    ensures Sane(Exec(s, run))
  {
    if run != [] {
      RunIsSane(s, Front(run));
      NextIsSane(Exec(s, Front(run)), Last(run));
    }
  }

  /** What a step adds to the rows of a lock. */
  function RowsAdded(s: State, step: Step, id: string): seq<Entry>
    requires Enabled(s, step)
  {
    if step == Commit(id) then s.live[id].flight.batch else []
  }

  /** What a step sends to the topic of a lock. */
  function ResultsSent(s: State, step: Step, id: string): seq<AccessResult>
    requires Enabled(s, step)
  {
    if step.Request? && step.id == id && s.live[id].grain.cached.Some?
    then [Answer(s.live[id].grain, step.roles)] else []
  }

  /** A lock's rows change only by its own commits, and its topic only by its own requests. */
  lemma {:induction false} StepEffects(s: State, step: Step, id: string)
    requires Sane(s) && Enabled(s, step)
    ensures Rows(Next(s, step).table, id) == Rows(s.table, id) + RowsAdded(s, step, id)
    ensures SentTo(Next(s, step).sent, id) == SentTo(s.sent, id) + ResultsSent(s, step, id)
  {
    if step.Commit? {
      assert FlushOk(s, step.id, s.live[step.id]);
      CommitEffect(s, step.id, id);
    } else if step.Request? {
      assert FlushOk(s, step.id, s.live[step.id]);
      RequestEffect(s.sent, s.live[step.id].grain, step, id);
    }
  }

  lemma {:induction false} CommitEffect(s: State, owner: string, id: string)
    requires Enabled(s, Commit(owner)) && FlushOk(s, owner, s.live[owner])
    ensures Rows(Next(s, Commit(owner)).table, id) == Rows(s.table, id) + RowsAdded(s, Commit(owner), id)
  {
    var batch := s.live[owner].flight.batch;
    RowsOfConcat(s.table, batch, id);
    RowsOfBatch(batch, owner, id);
  }

  lemma {:induction false} RequestEffect(sent: seq<Message>, g: GrainState, step: Step, id: string)
    requires step.Request? && (g.cached.Some? ==> g.cached.value.id == step.id)
    ensures SentTo(sent + Outgoing(g, step.roles), id) == SentTo(sent, id) +
            (if step.id == id && g.cached.Some? then [Answer(g, step.roles)] else [])
  {
    var outgoing := Outgoing(g, step.roles);
    SentToConcat(sent, outgoing, id);
    assert outgoing != [] ==> outgoing[1..] == [];
  }
}
