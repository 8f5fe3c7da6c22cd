/** Progress, blocking, keys and replies of the access log over whole runs. */
module AccessTheorems {
  import opened Common
  import opened Domain
  import opened GrainModel
  import opened AccessLog
  import opened AccessJournal
  import opened AccessDurability

  // ------------------------------------------------------------------------------------------
  // Progress and head-of-line blocking

  /** A step that is neither a flush step nor a deactivation of lock `id`. */
  predicate QuietFor(step: Step, id: string) {
    step.AddUser? || step.EditLock? || step.id != id || step.Request?
  }

  /** While a flush of `id` waits, requests only add to the list's end and other grains change none of its rows. */
  lemma {:induction false} WaitingKeepsTheFlight(s: State, run: seq<Step>, id: string)
    requires Sane(s) && IsRun(s, run) && id in s.live
    requires forall step | step in run :: QuietFor(step, id)
    ensures var t := Exec(s, run);
      && id in t.live && t.live[id].flight == s.live[id].flight
      && t.live[id].grain.cached == s.live[id].grain.cached
      && s.live[id].grain.accesses <= t.live[id].grain.accesses
      && Rows(t.table, id) == Rows(s.table, id)
      && s.users <= t.users && s.locks.Keys <= t.locks.Keys
  {
    if run != [] {
      WaitingKeepsTheFlight(s, Front(run), id);
      RunIsSane(s, Front(run));
      var t, step := Exec(s, Front(run)), Last(run);
      assert QuietFor(step, id);
      StepEffects(t, step, id);
    }
  }

  /**
   * A flush can commit, whatever arrives while it waits, if and only if by then every entry present at
   * its tick has a known requester and, if it names one, a known employee. The commit makes durable
   * exactly those entries, and the return of the save leaves exactly what has arrived since.
   */
  lemma {:induction false} FlushCommitsIff(s: State, waiting: seq<Step>, id: string)
    requires Sane(s) && id in s.live && s.live[id].flight.NoFlight?
    requires s.live[id].grain.cached.Some? && s.live[id].grain.accesses != []
    requires IsRun(Next(s, Tick(id)), waiting) && forall step | step in waiting :: QuietFor(step, id)
    ensures var list, t := s.live[id].grain.accesses, Exec(Next(s, Tick(id)), waiting);
      && id in t.live && list <= t.live[id].grain.accesses
      && (Enabled(t, Commit(id)) <==>
          forall e | e in list ::
            && e.requester.Some? && e.requester.value in t.users
            && (e.employee == None || e.employee.value in t.users))
      && (Enabled(t, Commit(id)) ==>
          var u := Next(t, Commit(id));
          && Rows(u.table, id) == Rows(s.table, id) + list
          && Enabled(u, SaveReturned(id))
          && Next(u, SaveReturned(id)).live[id].grain.accesses == t.live[id].grain.accesses[|list|..])
  {
    var ticked := Next(s, Tick(id));
    assert FlushOk(s, id, s.live[id]);
    NextIsSane(s, Tick(id));
    WaitingKeepsTheFlight(ticked, waiting, id);
    var t := Exec(ticked, waiting);
    RunIsSane(ticked, waiting);
    assert FlushOk(t, id, t.live[id]);
    KeysOfBatch(t, id, s.live[id].grain.accesses);
    if Enabled(t, Commit(id)) {
      StepEffects(t, Commit(id), id);
    }
  }

  /** What the store checks of a lock's batch comes down to the users it names. */
  lemma KeysOfBatch(s: State, id: string, batch: seq<Entry>)
    requires id in s.locks && forall e | e in batch :: e.lockId == id
    ensures (forall e | e in batch :: Acceptable(s, e)) <==>
            forall e | e in batch ::
              && e.requester.Some? && e.requester.value in s.users
              && (e.employee == None || e.employee.value in s.users)
  {
  }

  /** Users are never removed, so a flush of entries of known users commits whatever arrives. */
  lemma {:induction false} FlushCommits(s: State, waiting: seq<Step>, id: string)
    requires Sane(s) && id in s.live && s.live[id].flight.NoFlight?
    requires s.live[id].grain.cached.Some? && s.live[id].grain.accesses != []
    requires forall e | e in s.live[id].grain.accesses ::
               && e.requester.Some? && e.requester.value in s.users
               && (e.employee == None || e.employee.value in s.users)
    requires IsRun(Next(s, Tick(id)), waiting) && forall step | step in waiting :: QuietFor(step, id)
    ensures var t := Exec(Next(s, Tick(id)), waiting);
      Enabled(t, Commit(id)) &&
      Rows(Next(t, Commit(id)).table, id) == Rows(s.table, id) + s.live[id].grain.accesses
  {
    NextIsSane(s, Tick(id));
    WaitingKeepsTheFlight(Next(s, Tick(id)), waiting, id);
    FlushCommitsIff(s, waiting, id);
  }

  /** A lock that is activated for a request. */
  lemma {:induction false} FirstRequest(s: State, id: string, requester: Option<string>, roles: seq<string>,
                                        employee: Option<string>, now: int)
    requires Sane(s) && id !in s.live && id in s.locks
    ensures var run := [Activate(id), Request(id, requester, roles, employee, now)];
      var result := if (set r | r in s.locks[id]) * (set r | r in roles) != {} then Granted else Denied;
      var lock := Lock(id, s.locks[id]);
      && IsRun(s, run) && Sane(Exec(s, run))
      && Exec(s, run) == s.(
           live := s.live[id := Activation(
             GrainState(Some(lock), [Entry(id, now, result, requester, employee)], None), NoFlight)],
           sent := s.sent + [Message(id, result)])
  {
    var request := Request(id, requester, roles, employee, now);
    DecidedByCommonRole(Lock(id, s.locks[id]), roles);
    OneMoreStep(s, [], Activate(id));
    assert [] + [Activate(id)] == [Activate(id)];
    OneMoreStep(s, [Activate(id)], request);
    assert [Activate(id)] + [request] == [Activate(id), request];
    RunIsSane(s, [Activate(id), request]);
    var lock, result := Lock(id, s.locks[id]), Decide(Lock(id, s.locks[id]), roles);
    var a, t := Next(s, Activate(id)).live[id], Exec(s, [Activate(id), request]);
    assert a.grain == GrainState(Some(lock), [], None) && a.flight == NoFlight;
    assert Requested(a.grain, requester, roles, employee, now)
           == GrainState(Some(lock), [Entry(id, now, result, requester, employee)], None);
    assert t.live == s.live[id := t.live[id]];
    assert t == s.(live := t.live, sent := t.sent);
  }

  /** A flush of entries of known users that nothing disturbs writes the list and empties it. */
  lemma {:induction false} FlushEmpties(s: State, id: string)
    requires Sane(s) && id in s.live && s.live[id].flight.NoFlight?
    requires s.live[id].grain.cached.Some? && s.live[id].grain.accesses != []
    requires forall e | e in s.live[id].grain.accesses ::
               && e.requester.Some? && e.requester.value in s.users
               && (e.employee == None || e.employee.value in s.users)
    ensures var run := [Tick(id), Commit(id), SaveReturned(id)];
      && IsRun(s, run) && Exec(s, run).table == s.table + s.live[id].grain.accesses
      && Exec(s, run).sent == s.sent && id in Exec(s, run).live
      && Exec(s, run).live[id].flight == NoFlight && Exec(s, run).live[id].grain.accesses == []
  {
    FlushWrites(s, id);
    RunIsSane(s, [Tick(id), Commit(id)]);
    var u := Exec(s, [Tick(id), Commit(id)]);
    assert FlushOk(u, id, u.live[id]);
    OneMoreStep(s, [Tick(id), Commit(id)], SaveReturned(id));
    assert [Tick(id), Commit(id)] + [SaveReturned(id)] == [Tick(id), Commit(id), SaveReturned(id)];
  }

  /**
   * The whole path of one access: the lock is activated, decides by the database's roles, replies, and is
   * flushed; the table has exactly the one new row, and nothing is left in memory.
   */
  lemma {:induction false} AccessIsLogged(s: State, id: string, user: string, roles: seq<string>,
                                          employee: Option<string>, now: int)
    requires Sane(s) && id !in s.live && id in s.locks
    requires user in s.users && (employee == None || employee.value in s.users)
    ensures var flush := [Tick(id), Commit(id), SaveReturned(id)];
      var run := [Activate(id), Request(id, Some(user), roles, employee, now)] + flush;
      var result := if (set r | r in s.locks[id]) * (set r | r in roles) != {} then Granted else Denied;
      && IsRun(s, run)
      && Exec(s, run).table == s.table + [Entry(id, now, result, Some(user), employee)]
      && Exec(s, run).sent == s.sent + [Message(id, result)]
      && id in Exec(s, run).live && Exec(s, run).live[id].flight == NoFlight
      && Exec(s, run).live[id].grain.accesses == []
  {
    var first := [Activate(id), Request(id, Some(user), roles, employee, now)];
    FirstRequest(s, id, Some(user), roles, employee, now);
    FlushEmpties(Exec(s, first), id);
    ExecConcat(s, first, [Tick(id), Commit(id), SaveReturned(id)]);
  }

  /** When the committed save returns, the removal drops exactly the batch, however many requests arrived. */
  lemma {:induction false} RemovalDropsTheBatch(s: State, waiting: seq<Step>, id: string)
    requires Sane(s) && Enabled(s, SaveReturned(id))
    requires IsRun(s, waiting) && forall step | step in waiting :: QuietFor(step, id)
    ensures var t := Exec(s, waiting);
      Enabled(t, SaveReturned(id)) &&
      s.live[id].flight.batch + Next(t, SaveReturned(id)).live[id].grain.accesses == t.live[id].grain.accesses
  {
    RunIsSane(s, waiting);
    WaitingKeepsTheFlight(s, waiting, id);
    var t := Exec(s, waiting);
    assert FlushOk(t, id, t.live[id]);
  }

  /** `e` is in the list, behind any batch whose commit the grain has yet to see. */
  predicate StuckOn(a: Activation, e: Entry) {
    && e in a.grain.accesses
    && (a.flight.Flight? && a.flight.committed ==>
        |a.flight.batch| <= |a.grain.accesses| && e in a.grain.accesses[|a.flight.batch|..])
  }

  /** A batch waiting for its commit contains `e`. */
  predicate Blocked(a: Activation, e: Entry) {
    a.flight.Flight? && !a.flight.committed ==> e in a.flight.batch
  }

  /** The rows of `id` in `t` are those in `s`, or those and the one batch in flight in `s` without `e`. */
  predicate AtMostTheFlight(s: State, t: State, id: string, e: Entry)
    requires id in s.live
  {
    || Rows(t.table, id) == Rows(s.table, id)
    || (&& s.live[id].flight.Flight? && !s.live[id].flight.committed && e !in s.live[id].flight.batch
        && Rows(t.table, id) == Rows(s.table, id) + s.live[id].flight.batch)
  }

  predicate Halted(s: State, t: State, id: string, e: Entry)
    requires id in s.live
  {
    && id in t.live && StuckOn(t.live[id], e) && AtMostTheFlight(s, t, id, e)
    && (Blocked(t.live[id], e) || (t.live[id].flight == s.live[id].flight && Rows(t.table, id) == Rows(s.table, id)))
  }

  lemma {:induction false} StuckStep(a: Activation, e: Entry, s: State, step: Step, id: string)
    requires Enabled(s, step) && id in s.live && s.live[id] == a && FlushOk(s, id, a)
    requires StuckOn(a, e) && !Acceptable(s, e) && step != Deactivate(id)
    ensures id in Next(s, step).live && StuckOn(Next(s, step).live[id], e)
    ensures Blocked(Next(s, step).live[id], e) || Next(s, step).live[id].flight == a.flight
    ensures Blocked(a, e) ==> Blocked(Next(s, step).live[id], e)
    ensures step == Commit(id) ==> e !in a.flight.batch && Blocked(Next(s, step).live[id], e)
  {
    if a.flight.Flight? {
      assert a.grain.accesses == a.flight.batch + a.grain.accesses[|a.flight.batch|..];
    }
    if step.Request? && step.id == id {
      var after := Next(s, step).live[id].grain.accesses;
      assert a.grain.accesses <= after;
      if a.flight.Flight? {
        assert a.grain.accesses[|a.flight.batch|..] <= after[|a.flight.batch|..];
      }
    }
  }

  lemma {:induction false} HaltedStep(s: State, t: State, step: Step, id: string, e: Entry)
    requires id in s.live && Sane(t) && Enabled(t, step) && Halted(s, t, id, e)
    requires !Acceptable(t, e) && step != Deactivate(id)
    ensures Halted(s, Next(t, step), id, e)
  {
    assert FlushOk(t, id, t.live[id]);
    StuckStep(t.live[id], e, t, step, id);
    StepEffects(t, step, id);
    if step == Commit(id) {
      assert !Blocked(t.live[id], e);
    }
  }

  /**
   * Once an entry that the store goes on refusing is in the list, the lock's rows grow by at most the
   * one batch that was already in flight without it, for as long as the activation lives.
   */
  lemma {:induction false} HeadOfLineBlocking(s: State, run: seq<Step>, id: string, e: Entry)
    requires Sane(s) && IsRun(s, run) && id in s.live && e in s.live[id].grain.accesses
    requires Deactivate(id) !in run
    requires var users := Exec(s, run).users;
      e.requester == None || e.requester.value !in users || (e.employee.Some? && e.employee.value !in users)
    ensures id in Exec(s, run).live && e in Exec(s, run).live[id].grain.accesses
    ensures AtMostTheFlight(s, Exec(s, run), id, e)
  {
    StaysHalted(s, run, id, e);
  }

  lemma {:induction false} StaysHalted(s: State, run: seq<Step>, id: string, e: Entry)
    requires Sane(s) && IsRun(s, run) && id in s.live && e in s.live[id].grain.accesses
    requires Deactivate(id) !in run && !Acceptable(Exec(s, run), e)
    ensures !Acceptable(s, e) && Halted(s, Exec(s, run), id, e)
  {
    if run == [] {
      var a := s.live[id];
      assert FlushOk(s, id, a);
      if a.flight.Flight? {
        assert a.grain.accesses == a.flight.batch + a.grain.accesses[|a.flight.batch|..];
      }
    } else {
      assert Deactivate(id) !in Front(run) && Last(run) in run;
      StaysHalted(s, Front(run), id, e);
      RunIsSane(s, Front(run));
      HaltedStep(s, Exec(s, Front(run)), Last(run), id, e);
    }
  }

  /** An entry without a requester is refused for ever, and one naming an unknown user until that user is added. */
  lemma {:induction false} StaysRefused(s: State, run: seq<Step>, e: Entry, user: string)
    requires IsRun(s, run)
    requires e.requester == None ||
             ((e.requester == Some(user) || e.employee == Some(user)) && user !in s.users && AddUser(user) !in run)
    ensures !Acceptable(Exec(s, run), e)
  {
    if e.requester != None {
      UsersAreTheAdded(s, run, user);
    }
  }

  /** The known users are those from the start and those added. */
  lemma {:induction false} UsersAreTheAdded(s: State, run: seq<Step>, user: string)
    requires IsRun(s, run)
    ensures user in Exec(s, run).users <==> user in s.users || AddUser(user) in run
  {
    if run != [] {
      UsersAreTheAdded(s, Front(run), user);
      assert AddUser(user) in run <==> AddUser(user) in Front(run) || Last(run) == AddUser(user);
    }
  }

  /** The locks in the database are those from the start and those edited, never fewer. */
  lemma {:induction false} LocksAreTheEdited(s: State, run: seq<Step>, id: string)
    requires IsRun(s, run)
    ensures id in Exec(s, run).locks <==> id in s.locks || exists roles :: EditLock(id, roles) in run
  {
    if run != [] {
      LocksAreTheEdited(s, Front(run), id);
      assert forall step :: step in run <==> step in Front(run) || step == Last(run);
    }
  }

  /** Every row that any grain ever adds satisfies the table's keys, then and later. */
  lemma {:induction false} AddedRowsSatisfyTheKeys(s: State, run: seq<Step>)
    requires IsRun(s, run)
    requires forall e | e in s.table ::
               && e.lockId in s.locks && e.requester.Some? && e.requester.value in s.users
               && (e.employee == None || e.employee.value in s.users)
    ensures var t := Exec(s, run);
      forall e | e in t.table ::
        && e.lockId in t.locks && e.requester.Some? && e.requester.value in t.users
        && (e.employee == None || e.employee.value in t.users)
  {
    if run != [] {
      AddedRowsSatisfyTheKeys(s, Front(run));
    }
  }

  // ------------------------------------------------------------------------------------------
  // Replies, messages and history; the table only grows

  /** Replies, messages and the results in the table and in memory agree; a missing lock denies and leaves no trace. */
  lemma {:induction false} RepliesMessagesAndHistoryAgree(s0: State, run: seq<Step>, id: string)
    requires s0.live == map[] && IsRun(s0, run)
    ensures var epochs := Epochs(s0, run, id);
      && SentTo(Exec(s0, run).sent, id) == SentTo(s0.sent, id) + ResultsOf(epochs)
      && forall i :: 0 <= i < |epochs| ==>
          if epochs[i].cached.Some?
          then epochs[i].replies == Results(ReachedPart(epochs[i]) + Unreached(epochs[i]))
          else epochs[i].accesses == [] && forall r :: r in epochs[i].replies ==> r == Denied
  {
    RunIsConsistent(s0, run, id);
    var epochs := Epochs(s0, run, id);
    forall i | 0 <= i < |epochs|
      ensures ReachedPart(epochs[i]) + Unreached(epochs[i]) == epochs[i].accesses
    {
      PartsMakeAll(epochs[i]);
    }
  }

  lemma {:induction false} TableOnlyGrows(s: State, run: seq<Step>)
    requires IsRun(s, run)
    ensures s.table <= Exec(s, run).table
  {
    if run != [] {
      TableOnlyGrows(s, Front(run));
    }
  }
}
