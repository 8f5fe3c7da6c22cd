/**
 * The history of a run, kept beside the system and never read by it: for each lock the list of its
 * activations, each with the accesses it decided, the replies it gave and the saves it attempted.
 * The theorems tie this history to the table, the lists in memory and the messages sent.
 */
module AccessJournal {
  import opened Common
  import opened Domain
  import opened GrainModel
  import opened AccessLog

  /**
   * What became of a save: still unresolved; committed but the grain not yet resumed; committed and
   * removed from the list; failed without committing; committed although a failure was reported.
   */
  datatype Outcome = InFlight | Committed | Saved | Failed | Ambiguous

  datatype Attempt = Attempt(batch: seq<Entry>, outcome: Outcome)

  /** One activation of a lock. */
  datatype Epoch = Epoch(
    cached: Option<Lock>,
    accesses: seq<Entry>,
    replies: seq<AccessResult>,
    attempts: seq<Attempt>)

  predicate Resolved(o: Outcome) { o.Saved? || o.Failed? || o.Ambiguous? }

  predicate IsDurable(o: Outcome) { o.Committed? || o.Saved? || o.Ambiguous? }

  /** The entries the grain has dropped from its list. */
  function Removed(attempts: seq<Attempt>): seq<Entry> {
    if attempts == [] then []
    else Removed(Front(attempts)) + (if Last(attempts).outcome.Saved? then Last(attempts).batch else [])
  }

  /** The entries the attempts have put in the table. */
  function Durable(attempts: seq<Attempt>): seq<Entry> {
    if attempts == [] then []
    else Durable(Front(attempts)) + (if IsDurable(Last(attempts).outcome) then Last(attempts).batch else [])
  }

  function DurableOf(epochs: seq<Epoch>): seq<Entry> {
    if epochs == [] then [] else DurableOf(Front(epochs)) + Durable(Last(epochs).attempts)
  }

  /** The results a lock's activations have decided, in order. */
  function ResultsOf(epochs: seq<Epoch>): seq<AccessResult> {
    if epochs == [] then [] else ResultsOf(Front(epochs)) + Results(Last(epochs).accesses)
  }

  /** How the history of lock `id` grows when `step` is taken in `s`. */
  function Observe(epochs: seq<Epoch>, s: State, step: Step, id: string): seq<Epoch>
    requires Enabled(s, step)
  {
    if step.Activate? && step.id == id then
      epochs + [Epoch(FindLock(s.locks, id), [], [], [])]
    else if epochs == [] || step.AddUser? || step.EditLock? || step.id != id then
      epochs
    else
      SetLast(epochs, ObserveLive(Last(epochs), s.live[id], step))
  }

  function ObserveLive(e: Epoch, a: Activation, step: Step): Epoch {
    match step
    case Request(_, requester, roles, employee, now) =>
      var replies := e.replies + [Answer(a.grain, roles)];
      if e.cached.None? then e.(replies := replies)
      else
        var entry := Entry(e.cached.value.id, now, Decide(e.cached.value, roles), requester, employee);
        e.(replies := replies, accesses := e.accesses + [entry])
    case Tick(_) =>
      if a.grain.accesses == [] then e else e.(attempts := e.attempts + [Attempt(a.grain.accesses, InFlight)])
    case Commit(_) => Settle(e, Committed)
    case SaveReturned(_) => Settle(e, Saved)
    case SaveFailed(_) => Settle(e, if a.flight.Flight? && a.flight.committed then Ambiguous else Failed)
    case _ => e
  }

  /** Give the last attempt its outcome. */
  function Settle(e: Epoch, outcome: Outcome): Epoch {
    if e.attempts == [] then e
    else e.(attempts := SetLast(e.attempts, Attempt(Last(e.attempts).batch, outcome)))
  }

  function Epochs(s: State, run: seq<Step>, id: string): seq<Epoch>
    requires IsRun(s, run)
  {
    if run == [] then [] else Observe(Epochs(s, Front(run), id), Exec(s, Front(run)), Last(run), id)
  }

  // ------------------------------------------------------------------------------------------
  // The invariant

  /** Attempt `i` carries the accesses that follow the ones removed before it. */
  predicate StartsAt(accesses: seq<Entry>, attempts: seq<Attempt>, i: nat)
    requires i < |attempts|
  {
    attempts[i].batch != [] && Removed(attempts[..i]) + attempts[i].batch <= accesses
  }

  /** Every attempt starts at the first access not yet removed. */
  ghost predicate StartsAtFirstUnsaved(accesses: seq<Entry>, attempts: seq<Attempt>) {
    forall i | 0 <= i < |attempts| :: StartsAt(accesses, attempts, i)
  }

  /** Attempt `i` is resolved and, unless it was removed, contained in attempt `i + 1`. */
  predicate RetriedAt(attempts: seq<Attempt>, i: nat)
    requires i < |attempts| - 1
  {
    && Resolved(attempts[i].outcome)
    && (!attempts[i].outcome.Saved? ==> attempts[i].batch <= attempts[i + 1].batch)
  }

  /** Only the last attempt is open, and an attempt that was not removed is retried by the next one. */
  ghost predicate RetriedInFull(attempts: seq<Attempt>) {
    forall i | 0 <= i < |attempts| - 1 :: RetriedAt(attempts, i)
  }

  ghost predicate EpochOk(e: Epoch, id: string) {
    && (match e.cached
        case None => e.accesses == [] && e.attempts == [] && forall r :: r in e.replies ==> r == Denied
        case Some(lock) => lock.id == id && e.replies == Results(e.accesses))
    && (forall x :: x in e.accesses ==> x.lockId == id)
    && StartsAtFirstUnsaved(e.accesses, e.attempts)
    && RetriedInFull(e.attempts)
  }

  /** The live activation holds exactly the accesses of its epoch that were not removed. */
  ghost predicate LiveOk(a: Activation, e: Epoch) {
    && a.grain.cached == e.cached
    && Removed(e.attempts) + a.grain.accesses == e.accesses
    && (match a.flight
        case NoFlight => e.attempts == [] || Resolved(Last(e.attempts).outcome)
        case Flight(batch, committed) =>
          && e.attempts != []
          && Last(e.attempts) == Attempt(batch, if committed then Committed else InFlight))
  }

  ghost predicate Consistent(s0: State, s: State, epochs: seq<Epoch>, id: string) {
    && Rows(s.table, id) == Rows(s0.table, id) + DurableOf(epochs)
    && SentTo(s.sent, id) == SentTo(s0.sent, id) + ResultsOf(epochs)
    && (forall i :: 0 <= i < |epochs| ==> EpochOk(epochs[i], id))
    && (id in s.live ==> epochs != [] && LiveOk(s.live[id], Last(epochs)))
  }

  // ------------------------------------------------------------------------------------------
  // Each step of the lock's own activation

  lemma {:induction false} RequestKeepsEpoch(a: Activation, e: Epoch, step: Step, id: string)
    requires step.Request? && step.id == id && EpochOk(e, id) && LiveOk(a, e)
    ensures var e2 := ObserveLive(e, a, step);
      && EpochOk(e2, id) && e2.attempts == e.attempts
      && Results(e2.accesses) == Results(e.accesses) +
         (if a.grain.cached.Some? then [Answer(a.grain, step.roles)] else [])
      && LiveOk(a.(grain := Requested(a.grain, step.requester, step.roles, step.employee, step.now)), e2)
  {
    var e2 := ObserveLive(e, a, step);
    if e.cached.Some? {
      var entry := Last(e2.accesses);
      assert e2.accesses == e.accesses + [entry];
      forall i | 0 <= i < |e.attempts|
        ensures StartsAt(e2.accesses, e.attempts, i)
      {
        assert StartsAt(e.accesses, e.attempts, i);
        PrefixOfAppend(Removed(e.attempts[..i]) + e.attempts[i].batch, e.accesses, [entry]);
      }
      assert Removed(e.attempts) + (a.grain.accesses + [entry]) == e2.accesses;
    }
  }

  /** A tick's batch is the whole list: everything not yet removed, so it contains a failed batch. */
  lemma {:induction false} NewAttemptStarts(accesses: seq<Entry>, attempts: seq<Attempt>, batch: seq<Entry>)
    requires StartsAtFirstUnsaved(accesses, attempts)
    requires Removed(attempts) + batch == accesses && batch != []
    ensures StartsAtFirstUnsaved(accesses, attempts + [Attempt(batch, InFlight)])
  {
    var longer := attempts + [Attempt(batch, InFlight)];
    forall i | 0 <= i < |longer|
      ensures StartsAt(accesses, longer, i)
    {
      if i < |attempts| {
        assert StartsAt(accesses, attempts, i);
        assert longer[..i] == attempts[..i] && longer[i] == attempts[i];
      } else {
        assert longer[..i] == attempts;
      }
    }
  }

  lemma {:induction false} NewAttemptRetries(accesses: seq<Entry>, attempts: seq<Attempt>, batch: seq<Entry>)
    requires StartsAtFirstUnsaved(accesses, attempts) && RetriedInFull(attempts)
    requires attempts != [] ==> Resolved(Last(attempts).outcome)
    requires Removed(attempts) + batch == accesses
    ensures RetriedInFull(attempts + [Attempt(batch, InFlight)])
  {
    var longer, last := attempts + [Attempt(batch, InFlight)], |attempts| - 1;
    forall i | 0 <= i < |attempts|
      ensures RetriedAt(longer, i)
    {
      if i < last {
        assert RetriedAt(attempts, i);
      } else if !Last(attempts).outcome.Saved? {
        assert StartsAt(accesses, attempts, last);
        SamePrefixDrop(Removed(attempts), attempts[last].batch, batch);
      }
    }
  }

  lemma {:induction false} TickKeepsEpoch(a: Activation, e: Epoch, id: string)
    requires EpochOk(e, id) && LiveOk(a, e) && a.flight.NoFlight? && a.grain.accesses != []
    ensures var e2 := ObserveLive(e, a, Tick(id));
      && EpochOk(e2, id) && e2.accesses == e.accesses
      && Durable(e2.attempts) == Durable(e.attempts)
      && LiveOk(Activation(FlushStarted(a.grain), Flight(a.grain.accesses, false)), e2)
  {
    NewAttemptStarts(e.accesses, e.attempts, a.grain.accesses);
    NewAttemptRetries(e.accesses, e.attempts, a.grain.accesses);
    FrontOfAppend(e.attempts, Attempt(a.grain.accesses, InFlight));
  }

  lemma {:induction false} SamePrefixDrop<T>(p: seq<T>, a: seq<T>, b: seq<T>)
    requires p + a <= p + b
    ensures a <= b
  {
    forall i | 0 <= i < |a|
      ensures a[i] == b[i]
    {
      assert (p + a)[|p| + i] == (p + b)[|p| + i];
    }
  }

  /** Resolving the open attempt, with `rest` the list afterwards. */
  lemma {:induction false} SettleKeepsEpoch(e: Epoch, id: string, outcome: Outcome)
    requires EpochOk(e, id) && e.attempts != []
    ensures var e2 := Settle(e, outcome);
      && EpochOk(e2, id)
      && Removed(e2.attempts) == Removed(Front(e.attempts)) + (if outcome.Saved? then Last(e.attempts).batch else [])
      && Durable(e2.attempts) == Durable(Front(e.attempts)) + (if IsDurable(outcome) then Last(e.attempts).batch else [])
      && Last(e2.attempts) == Attempt(Last(e.attempts).batch, outcome)
  {
    var attempts := Settle(e, outcome).attempts;
    FrontOfAppend(Front(e.attempts), Last(attempts));
    forall i | 0 <= i < |attempts|
      ensures StartsAt(e.accesses, attempts, i)
    {
      assert StartsAt(e.accesses, e.attempts, i);
      assert attempts[..i] == e.attempts[..i] && attempts[i].batch == e.attempts[i].batch;
    }
    forall i | 0 <= i < |attempts| - 1
      ensures RetriedAt(attempts, i)
    {
      assert RetriedAt(e.attempts, i);
    }
  }

  lemma {:induction false} CommitKeepsEpoch(a: Activation, e: Epoch, id: string)
    requires EpochOk(e, id) && LiveOk(a, e) && a.flight.Flight? && !a.flight.committed
    ensures var e2 := ObserveLive(e, a, Commit(id));
      && EpochOk(e2, id) && e2.accesses == e.accesses
      && Durable(e2.attempts) == Durable(e.attempts) + a.flight.batch
      && LiveOk(a.(flight := a.flight.(committed := true)), e2)
  {
    SettleKeepsEpoch(e, id, Committed);
  }

  lemma {:induction false} ReturnKeepsEpoch(s: State, a: Activation, e: Epoch, id: string)
    requires FlushOk(s, id, a) && EpochOk(e, id) && LiveOk(a, e) && a.flight.Flight? && a.flight.committed
    ensures var e2 := ObserveLive(e, a, SaveReturned(id));
      && EpochOk(e2, id) && e2.accesses == e.accesses
      && Durable(e2.attempts) == Durable(e.attempts)
      && LiveOk(Activation(FlushResumed(a.grain), NoFlight), e2)
  {
    SettleKeepsEpoch(e, id, Saved);
    var n := |a.flight.batch|;
    assert a.grain.accesses == a.flight.batch + a.grain.accesses[n..];
    assert Removed(e.attempts) == Removed(Front(e.attempts));
  }

  lemma {:induction false} FailureKeepsEpoch(a: Activation, e: Epoch, id: string)
    requires EpochOk(e, id) && LiveOk(a, e) && a.flight.Flight?
    ensures var e2 := ObserveLive(e, a, SaveFailed(id));
      && EpochOk(e2, id) && e2.accesses == e.accesses
      && Durable(e2.attempts) == Durable(e.attempts)
      && LiveOk(Activation(FlushFaulted(a.grain), NoFlight), e2)
  {
    var outcome := if a.flight.committed then Ambiguous else Failed;
    SettleKeepsEpoch(e, id, outcome);
    assert ObserveLive(e, a, SaveFailed(id)) == Settle(e, outcome);
    assert Removed(Settle(e, outcome).attempts) == Removed(e.attempts);
  }

  /** What a step adds to the last epoch it adds to the table and to the messages. */
  lemma {:induction false} LastEpochGrows(s0: State, s: State, t: State, epochs: seq<Epoch>, e: Epoch, id: string,
                       rows: seq<Entry>, results: seq<AccessResult>)
    requires epochs != [] && Consistent(s0, s, epochs, id)
    requires EpochOk(e, id) && id in t.live && LiveOk(t.live[id], e)
    requires Rows(t.table, id) == Rows(s.table, id) + rows
    requires Durable(e.attempts) == Durable(Last(epochs).attempts) + rows
    requires SentTo(t.sent, id) == SentTo(s.sent, id) + results
    requires Results(e.accesses) == Results(Last(epochs).accesses) + results
    ensures Consistent(s0, t, SetLast(epochs, e), id)
  {
    var epochs2 := SetLast(epochs, e);
    TotalsGrow(epochs, e, rows, results);
    ConcatAssoc(Rows(s0.table, id), DurableOf(epochs), rows);
    ConcatAssoc(SentTo(s0.sent, id), ResultsOf(epochs), results);
    forall i | 0 <= i < |epochs2|
      ensures EpochOk(epochs2[i], id)
    {
      if i < |epochs| - 1 { assert epochs2[i] == epochs[i]; }
    }
  }

  lemma {:induction false} TotalsGrow(epochs: seq<Epoch>, e: Epoch, rows: seq<Entry>, results: seq<AccessResult>)
    requires epochs != []
    requires Durable(e.attempts) == Durable(Last(epochs).attempts) + rows
    requires Results(e.accesses) == Results(Last(epochs).accesses) + results
    ensures DurableOf(SetLast(epochs, e)) == DurableOf(epochs) + rows
    ensures ResultsOf(SetLast(epochs, e)) == ResultsOf(epochs) + results
  {
    FrontOfAppend(Front(epochs), e);
  }

  /** The lock's own step, apart from activation and deactivation. */
  lemma {:induction false} OwnEpochStep(s: State, e: Epoch, step: Step, id: string)
    requires Enabled(s, step) && !step.AddUser? && !step.EditLock? && !step.Activate? && !step.Deactivate?
    requires step.id == id && FlushOk(s, id, s.live[id]) && EpochOk(e, id) && LiveOk(s.live[id], e)
    ensures var e2 := ObserveLive(e, s.live[id], step);
      && EpochOk(e2, id) && id in Next(s, step).live && LiveOk(Next(s, step).live[id], e2)
      && Durable(e2.attempts) == Durable(e.attempts) + RowsAdded(s, step, id)
      && Results(e2.accesses) == Results(e.accesses) + ResultsSent(s, step, id)
  {
    var a := s.live[id];
    match step
    case Request(_, _, _, _, _) => RequestKeepsEpoch(a, e, step, id);
    case Tick(_) => if a.grain.accesses != [] { TickKeepsEpoch(a, e, id); }
    case Commit(_) => CommitKeepsEpoch(a, e, id);
    case SaveReturned(_) => ReturnKeepsEpoch(s, a, e, id);
    case SaveFailed(_) => FailureKeepsEpoch(a, e, id);
  }

  // ------------------------------------------------------------------------------------------
  // Every step, every lock

  /** A step of one lock leaves another lock's activation, rows and messages as they were. */
  lemma {:induction false} OtherStep(s0: State, s: State, epochs: seq<Epoch>, step: Step, id: string)
    requires Sane(s) && Enabled(s, step) && Consistent(s0, s, epochs, id)
    requires step.AddUser? || step.EditLock? || step.id != id
    ensures Consistent(s0, Next(s, step), Observe(epochs, s, step, id), id)
  {
    StepEffects(s, step, id);
    var t := Next(s, step);
    assert Rows(t.table, id) == Rows(s.table, id) && SentTo(t.sent, id) == SentTo(s.sent, id);
    assert id in t.live <==> id in s.live;
    assert id in t.live ==> t.live[id] == s.live[id];
  }

  lemma {:induction false} ActivateStep(s0: State, s: State, epochs: seq<Epoch>, id: string)
    requires Sane(s) && Enabled(s, Activate(id)) && Consistent(s0, s, epochs, id)
    ensures Consistent(s0, Next(s, Activate(id)), Observe(epochs, s, Activate(id), id), id)
  {
    FrontOfAppend(epochs, Epoch(FindLock(s.locks, id), [], [], []));
  }

  lemma {:induction false} OwnStep(s0: State, s: State, epochs: seq<Epoch>, step: Step, id: string)
    requires Sane(s) && Enabled(s, step) && Consistent(s0, s, epochs, id)
    requires !step.AddUser? && !step.EditLock? && !step.Activate? && step.id == id
    ensures Consistent(s0, Next(s, step), Observe(epochs, s, step, id), id)
  {
    if step.Deactivate? {
      assert SetLast(epochs, Last(epochs)) == epochs;
    } else {
      assert FlushOk(s, id, s.live[id]);
      OwnEpochStep(s, Last(epochs), step, id);
      StepEffects(s, step, id);
      LastEpochGrows(s0, s, Next(s, step), epochs, ObserveLive(Last(epochs), s.live[id], step), id,
                     RowsAdded(s, step, id), ResultsSent(s, step, id));
    }
  }

  /** The invariant holds in every run that starts with no activation alive, for every lock. */
  lemma {:induction false} RunIsConsistent(s0: State, run: seq<Step>, id: string)
    requires s0.live == map[] && IsRun(s0, run)
    ensures Sane(Exec(s0, run)) && Consistent(s0, Exec(s0, run), Epochs(s0, run, id), id)
  {
    if run != [] {
      RunIsConsistent(s0, Front(run), id);
      var s, epochs, step := Exec(s0, Front(run)), Epochs(s0, Front(run), id), Last(run);
      NextIsSane(s, step);
      if step.AddUser? || step.EditLock? || step.id != id {
        OtherStep(s0, s, epochs, step, id);
      } else if step.Activate? {
        ActivateStep(s0, s, epochs, id);
      } else {
        OwnStep(s0, s, epochs, step, id);
      }
    }
  }
}
