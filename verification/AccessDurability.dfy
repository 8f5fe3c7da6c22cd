/**
 * How far an activation's saves reach into its accesses, what they put in the table a second time, and
 * what a deactivation loses: exactly-once and at-least-once logging over whole runs.
 */
module AccessDurability {
  import opened Common
  import opened Domain
  import opened GrainModel
  import opened AccessLog
  import opened AccessJournal

  /** The first `n` elements, or all if there are fewer; and the others. */
  function Take<T>(s: seq<T>, n: nat): seq<T> {
    if n <= |s| then s[..n] else s
  }

  function Drop<T>(s: seq<T>, n: nat): seq<T> {
    if n <= |s| then s[n..] else []
  }

  // ------------------------------------------------------------------------------------------
  // One activation

  /** The number of accesses, from the first, that the committed saves cover. */
  function Reached(attempts: seq<Attempt>): nat {
    if attempts == [] then 0
    else if IsDurable(Last(attempts).outcome) then |Removed(Front(attempts))| + |Last(attempts).batch|
    else Reached(Front(attempts))
  }

  /** The part of a new batch that earlier commits cover, when the grain has not removed it. */
  function CoveredBefore(earlier: seq<Attempt>, batch: seq<Entry>): seq<Entry> {
    if |Removed(earlier)| < Reached(earlier) then Take(batch, Reached(earlier) - |Removed(earlier)|) else []
  }

  /** The entries that the attempts have put in the table again. */
  function Copies(attempts: seq<Attempt>): seq<Entry> {
    if attempts == [] then []
    else Copies(Front(attempts)) +
         if IsDurable(Last(attempts).outcome) then CoveredBefore(Front(attempts), Last(attempts).batch) else []
  }

  predicate HasAmbiguous(attempts: seq<Attempt>) {
    attempts != [] && (Last(attempts).outcome.Ambiguous? || HasAmbiguous(Front(attempts)))
  }

  /** No attempt commits after one that committed although the grain was told it failed. */
  predicate NeverRecommitted(attempts: seq<Attempt>) {
    attempts == [] ||
    (NeverRecommitted(Front(attempts)) && (IsDurable(Last(attempts).outcome) ==> !HasAmbiguous(Front(attempts))))
  }

  ghost predicate Orderly(accesses: seq<Entry>, attempts: seq<Attempt>) {
    StartsAtFirstUnsaved(accesses, attempts) && RetriedInFull(attempts)
  }

  lemma {:induction false} FrontIsOrderly(accesses: seq<Entry>, attempts: seq<Attempt>)
    requires attempts != [] && Orderly(accesses, attempts)
    ensures Orderly(accesses, Front(attempts))
  {
    var front := Front(attempts);
    forall i | 0 <= i < |front|
      ensures StartsAt(accesses, front, i)
    {
      assert StartsAt(accesses, attempts, i);
      assert front[..i] == attempts[..i];
    }
    forall i | 0 <= i < |front| - 1
      ensures RetriedAt(front, i)
    {
      assert RetriedAt(attempts, i);
    }
  }

  /** What is removed was committed, what was committed was accessed, and a new batch never ends before it. */
  lemma {:induction false} ReachedIsWithin(accesses: seq<Entry>, attempts: seq<Attempt>)
    requires Orderly(accesses, attempts)
    ensures Removed(attempts) <= accesses
    ensures |Removed(attempts)| <= Reached(attempts) <= |accesses|
    ensures attempts != [] ==>
              Reached(Front(attempts)) <= |Removed(Front(attempts))| + |Last(attempts).batch|
  {
    if attempts != [] {
      var earlier := Front(attempts);
      FrontIsOrderly(accesses, attempts);
      ReachedIsWithin(accesses, earlier);
      assert StartsAt(accesses, attempts, |attempts| - 1);
      if earlier != [] {
        assert RetriedAt(attempts, |earlier| - 1);
      }
    }
  }

  /** Every committed batch ends within what was reached. */
  lemma {:induction false} ReachedIsFarthest(accesses: seq<Entry>, attempts: seq<Attempt>, i: nat)
    requires Orderly(accesses, attempts) && i < |attempts| && IsDurable(attempts[i].outcome)
    ensures |Removed(attempts[..i])| + |attempts[i].batch| <= Reached(attempts)
  {
    var earlier := Front(attempts);
    if i < |earlier| {
      FrontIsOrderly(accesses, attempts);
      ReachedIsFarthest(accesses, earlier, i);
      assert earlier[..i] == attempts[..i];
      ReachedIsWithin(accesses, attempts);
    }
  }

  /** The rows of an activation are the accesses it reached and the copies. */
  lemma {:induction false} DurableBalance(accesses: seq<Entry>, attempts: seq<Attempt>)
    requires Orderly(accesses, attempts)
    ensures multiset(Durable(attempts)) == multiset(Take(accesses, Reached(attempts))) + multiset(Copies(attempts))
    ensures Copies(attempts) == [] ==> Durable(attempts) == Take(accesses, Reached(attempts))
    ensures forall x :: x in Copies(attempts) ==> x in Take(accesses, Reached(attempts))
  {
    if attempts != [] {
      FrontIsOrderly(accesses, attempts);
      ReachedIsWithin(accesses, Front(attempts));
      ReachedIsWithin(accesses, attempts);
      DurableBalance(accesses, Front(attempts));
      if IsDurable(Last(attempts).outcome) {
        CommitBalance(accesses, attempts);
      }
    }
  }

  /** A committed batch is what earlier commits covered, again, and what they did not. */
  lemma {:induction false} CommitSplits(accesses: seq<Entry>, attempts: seq<Attempt>)
    returns (again: seq<Entry>, added: seq<Entry>)
    requires attempts != [] && Orderly(accesses, attempts) && IsDurable(Last(attempts).outcome)
    ensures Last(attempts).batch == again + added
    ensures CoveredBefore(Front(attempts), Last(attempts).batch) == again
    ensures Take(accesses, Reached(attempts)) == Take(accesses, Reached(Front(attempts))) + added
    ensures forall x :: x in again ==> x in Take(accesses, Reached(Front(attempts)))
  {
    var earlier, batch := Front(attempts), Last(attempts).batch;
    LastBatchIsWithin(accesses, attempts);
    var from, reach := |Removed(earlier)|, Reached(earlier);
    again, added := batch[..reach - from], batch[reach - from..];
    SplitAtReach(accesses, Removed(earlier), batch, reach);
  }

  /** The last batch starts at what was removed and passes what was reached before. */
  lemma {:induction false} LastBatchIsWithin(accesses: seq<Entry>, attempts: seq<Attempt>)
    requires attempts != [] && Orderly(accesses, attempts)
    ensures Removed(Front(attempts)) + Last(attempts).batch <= accesses
    ensures var removed := |Removed(Front(attempts))|;
      removed <= Reached(Front(attempts)) <= removed + |Last(attempts).batch|
  {
    FrontIsOrderly(accesses, attempts);
    ReachedIsWithin(accesses, Front(attempts));
    ReachedIsWithin(accesses, attempts);
    assert StartsAt(accesses, attempts, |attempts| - 1);
  }

  lemma SplitAtReach<T>(s: seq<T>, head: seq<T>, batch: seq<T>, reach: nat)
    requires head + batch <= s && |head| <= reach <= |head| + |batch|
    ensures Take(s, |head| + |batch|) == Take(s, reach) + batch[reach - |head|..]
    ensures forall x :: x in batch[..reach - |head|] ==> x in Take(s, reach)
  {
    assert s[..|head| + |batch|] == head + batch;
    forall i | 0 <= i < reach - |head|
      ensures batch[i] == Take(s, reach)[|head| + i]
    {
      assert (head + batch)[|head| + i] == batch[i];
    }
  }

  lemma {:induction false} CommitBalance(accesses: seq<Entry>, attempts: seq<Attempt>)
    requires attempts != [] && Orderly(accesses, attempts) && IsDurable(Last(attempts).outcome)
    requires multiset(Durable(Front(attempts))) ==
             multiset(Take(accesses, Reached(Front(attempts)))) + multiset(Copies(Front(attempts)))
    requires Copies(Front(attempts)) == [] ==> Durable(Front(attempts)) == Take(accesses, Reached(Front(attempts)))
    requires forall x :: x in Copies(Front(attempts)) ==> x in Take(accesses, Reached(Front(attempts)))
    ensures multiset(Durable(attempts)) == multiset(Take(accesses, Reached(attempts))) + multiset(Copies(attempts))
    ensures Copies(attempts) == [] ==> Durable(attempts) == Take(accesses, Reached(attempts))
    ensures forall x :: x in Copies(attempts) ==> x in Take(accesses, Reached(attempts))
  {
    var earlier := Front(attempts);
    var again, added := CommitSplits(accesses, attempts);
    assert multiset(again + added) == multiset(added) + multiset(again);
    SumGrows(Durable(earlier), again + added, Take(accesses, Reached(earlier)), added, Copies(earlier), again);
    assert again == [] ==> again + added == added;
  }

  /** Between saves, in an activation that copied nothing, more was reached than removed only after a false failure. */
  lemma {:induction false} ReachPassesRemovedIff(accesses: seq<Entry>, attempts: seq<Attempt>)
    requires Orderly(accesses, attempts) && NeverRecommitted(attempts)
    requires attempts != [] ==> Resolved(Last(attempts).outcome)
    ensures |Removed(attempts)| < Reached(attempts) <==> HasAmbiguous(attempts)
  {
    if attempts != [] {
      FrontIsOrderly(accesses, attempts);
      assert StartsAt(accesses, attempts, |attempts| - 1);
      if |attempts| > 1 {
        assert RetriedAt(attempts, |attempts| - 2);
      }
      ReachPassesRemovedIff(accesses, Front(attempts));
    }
  }

  /** Nothing is copied exactly if no attempt commits after a false failure. */
  lemma {:induction false} NothingIsCopiedIff(accesses: seq<Entry>, attempts: seq<Attempt>)
    requires Orderly(accesses, attempts)
    ensures Copies(attempts) == [] <==> NeverRecommitted(attempts)
  {
    if attempts != [] {
      var earlier := Front(attempts);
      FrontIsOrderly(accesses, attempts);
      NothingIsCopiedIff(accesses, earlier);
      assert StartsAt(accesses, attempts, |attempts| - 1);
      if earlier != [] {
        assert RetriedAt(attempts, |earlier| - 1);
      }
      if NeverRecommitted(earlier) {
        ReachPassesRemovedIff(accesses, earlier);
      }
    }
  }

  // ------------------------------------------------------------------------------------------
  // All activations of a lock

  /** The accesses of an activation that are in the table, and those that are not. */
  function ReachedPart(e: Epoch): seq<Entry> {
    Take(e.accesses, Reached(e.attempts))
  }

  function Unreached(e: Epoch): seq<Entry> {
    Drop(e.accesses, Reached(e.attempts))
  }

  lemma PartsMakeAll(e: Epoch)
    ensures e.accesses == ReachedPart(e) + Unreached(e)
  {
  }

  function ReachedOf(epochs: seq<Epoch>): seq<Entry> {
    if epochs == [] then [] else ReachedOf(Front(epochs)) + ReachedPart(Last(epochs))
  }

  function UnreachedOf(epochs: seq<Epoch>): seq<Entry> {
    if epochs == [] then [] else UnreachedOf(Front(epochs)) + Unreached(Last(epochs))
  }

  function AccessesOf(epochs: seq<Epoch>): seq<Entry> {
    if epochs == [] then [] else AccessesOf(Front(epochs)) + Last(epochs).accesses
  }

  function CopiesOf(epochs: seq<Epoch>): seq<Entry> {
    if epochs == [] then [] else CopiesOf(Front(epochs)) + Copies(Last(epochs).attempts)
  }

  predicate NoneRecommitted(epochs: seq<Epoch>) {
    epochs == [] || (NoneRecommitted(Front(epochs)) && NeverRecommitted(Last(epochs).attempts))
  }

  ghost predicate AllOk(epochs: seq<Epoch>, id: string) {
    forall i :: 0 <= i < |epochs| ==> EpochOk(epochs[i], id)
  }

  lemma {:induction false} RowsBalance(epochs: seq<Epoch>, id: string)
    requires AllOk(epochs, id)
    ensures multiset(DurableOf(epochs)) == multiset(ReachedOf(epochs)) + multiset(CopiesOf(epochs))
    ensures CopiesOf(epochs) == [] ==> DurableOf(epochs) == ReachedOf(epochs)
    ensures forall x :: x in CopiesOf(epochs) ==> x in ReachedOf(epochs)
    ensures CopiesOf(epochs) == [] <==> NoneRecommitted(epochs)
  {
    if epochs != [] {
      var earlier, e := Front(epochs), Last(epochs);
      RowsBalance(earlier, id);
      DurableBalance(e.accesses, e.attempts);
      NothingIsCopiedIff(e.accesses, e.attempts);
      SumGrows(DurableOf(earlier), Durable(e.attempts), ReachedOf(earlier), ReachedPart(e),
               CopiesOf(earlier), Copies(e.attempts));
    }
  }

  lemma {:induction false} AccessesBalance(epochs: seq<Epoch>)
    ensures multiset(AccessesOf(epochs)) == multiset(ReachedOf(epochs)) + multiset(UnreachedOf(epochs))
  {
    if epochs != [] {
      var earlier, e := Front(epochs), Last(epochs);
      AccessesBalance(earlier);
      PartsMakeAll(e);
      assert multiset(e.accesses) == multiset(ReachedPart(e)) + multiset(Unreached(e));
      SumGrows(AccessesOf(earlier), e.accesses, ReachedOf(earlier), ReachedPart(e), UnreachedOf(earlier), Unreached(e));
    }
  }

  /** One activation's part is among those of all. */
  lemma {:induction false} PartsAreIncluded(epochs: seq<Epoch>, i: nat)
    requires i < |epochs|
    ensures forall x :: x in ReachedPart(epochs[i]) ==> x in ReachedOf(epochs)
    ensures forall x :: x in Unreached(epochs[i]) ==> x in UnreachedOf(epochs)
  {
    if i < |epochs| - 1 {
      PartsAreIncluded(Front(epochs), i);
      assert Front(epochs)[i] == epochs[i];
    } else {
      assert epochs[i] == Last(epochs);
    }
  }

  // ------------------------------------------------------------------------------------------
  // Which runs copy nothing

  /** The access a step makes on a lock: a request that reaches an activation with a loaded lock makes one. */
  function AccessBy(s: State, step: Step, id: string): seq<Entry>
    requires Enabled(s, step)
  {
    if step.Request? && step.id == id && s.live[id].grain.cached.Some?
    then [Entry(id, step.now, Answer(s.live[id].grain, step.roles), step.requester, step.employee)]
    else []
  }

  /** The accesses a run makes on a lock, in order. */
  function AccessesMade(s: State, run: seq<Step>, id: string): seq<Entry>
    requires IsRun(s, run)
  {
    if run == [] then []
    else AccessesMade(s, Front(run), id) + AccessBy(Exec(s, Front(run)), Last(run), id)
  }

  lemma {:induction false} AccessesGrow(s0: State, s: State, epochs: seq<Epoch>, step: Step, id: string)
    requires Sane(s) && Enabled(s, step) && Consistent(s0, s, epochs, id)
    ensures AccessesOf(Observe(epochs, s, step, id)) == AccessesOf(epochs) + AccessBy(s, step, id)
  {
    if step.Activate? && step.id == id {
      FrontOfAppend(epochs, Epoch(FindLock(s.locks, id), [], [], []));
    } else if !step.AddUser? && !step.EditLock? && step.id == id {
      var e, e2 := Last(epochs), ObserveLive(Last(epochs), s.live[id], step);
      assert FlushOk(s, id, s.live[id]);
      FrontOfAppend(Front(epochs), e2);
      assert e2.accesses == e.accesses + AccessBy(s, step, id);
      ConcatAssoc(AccessesOf(Front(epochs)), e.accesses, AccessBy(s, step, id));
    }
  }

  /** The history kept beside a run is exactly its requests, in order. */
  lemma {:induction false} HistoryIsTheRequests(s0: State, run: seq<Step>, id: string)
    requires s0.live == map[] && IsRun(s0, run)
    ensures AccessesOf(Epochs(s0, run, id)) == AccessesMade(s0, run, id)
  {
    if run != [] {
      HistoryIsTheRequests(s0, Front(run), id);
      RunIsConsistent(s0, Front(run), id);
      AccessesGrow(s0, Exec(s0, Front(run)), Epochs(s0, Front(run), id), Last(run), id);
    }
  }

  /** No save of lock `id` commits and then reports a failure. */
  predicate Atomic(s: State, run: seq<Step>, id: string)
    requires IsRun(s, run)
  {
    run == [] ||
    (Atomic(s, Front(run), id) &&
     (Last(run) == SaveFailed(id) ==> !Exec(s, Front(run)).live[id].flight.committed))
  }

  /** A save of the current or last activation of `id` committed and then reported a failure. */
  predicate Tainted(s: State, run: seq<Step>, id: string)
    requires IsRun(s, run)
  {
    run != [] && Last(run) != Activate(id) &&
    ((Last(run) == SaveFailed(id) && Exec(s, Front(run)).live[id].flight.committed) || Tainted(s, Front(run), id))
  }

  /** No save of `id` commits after one of the same activation that committed and then reported a failure. */
  predicate NeverRecommits(s: State, run: seq<Step>, id: string)
    requires IsRun(s, run)
  {
    run == [] ||
    (NeverRecommits(s, Front(run), id) && (Last(run) == Commit(id) ==> !Tainted(s, Front(run), id)))
  }

  lemma {:induction false} AtomicNeverRecommits(s: State, run: seq<Step>, id: string)
    requires IsRun(s, run) && Atomic(s, run, id)
    ensures !Tainted(s, run, id) && NeverRecommits(s, run, id)
  {
    if run != [] {
      AtomicNeverRecommits(s, Front(run), id);
    }
  }

  lemma {:induction false} OwnStepTaints(s: State, e: Epoch, step: Step, id: string)
    requires Enabled(s, step) && !step.AddUser? && !step.EditLock? && !step.Activate? && step.id == id
    requires LiveOk(s.live[id], e)
    ensures var attempts := ObserveLive(e, s.live[id], step).attempts;
      && (HasAmbiguous(attempts) <==>
          HasAmbiguous(e.attempts) || (step == SaveFailed(id) && s.live[id].flight.committed))
      && (NeverRecommitted(attempts) <==>
          NeverRecommitted(e.attempts) && (step == Commit(id) ==> !HasAmbiguous(e.attempts)))
  {
    var a := s.live[id];
    match step
    case Tick(_) =>
      if a.grain.accesses != [] {
        FrontOfAppend(e.attempts, Attempt(a.grain.accesses, InFlight));
      }
    case Commit(_) => SettleTaints(e, Committed);
    case SaveReturned(_) => SettleTaints(e, Saved);
    case SaveFailed(_) => SettleTaints(e, if a.flight.committed then Ambiguous else Failed);
    case _ =>
  }

  lemma {:induction false} SettleTaints(e: Epoch, outcome: Outcome)
    requires e.attempts != [] && !Resolved(Last(e.attempts).outcome)
    ensures var attempts := Settle(e, outcome).attempts;
      && (HasAmbiguous(attempts) <==> HasAmbiguous(e.attempts) || outcome.Ambiguous?)
      && (NeverRecommitted(attempts) <==>
          NeverRecommitted(Front(e.attempts)) && (IsDurable(outcome) ==> !HasAmbiguous(e.attempts)))
  {
    FrontOfAppend(Front(e.attempts), Attempt(Last(e.attempts).batch, outcome));
  }

  /** The history tells the same as the run. */
  lemma {:induction false} TaintIsInTheHistory(s0: State, run: seq<Step>, id: string)
    requires s0.live == map[] && IsRun(s0, run)
    ensures var epochs := Epochs(s0, run, id);
      && (Tainted(s0, run, id) <==> epochs != [] && HasAmbiguous(Last(epochs).attempts))
      && (NeverRecommits(s0, run, id) <==> NoneRecommitted(epochs))
  {
    if run != [] {
      TaintIsInTheHistory(s0, Front(run), id);
      RunIsConsistent(s0, Front(run), id);
      var s, epochs, step := Exec(s0, Front(run)), Epochs(s0, Front(run), id), Last(run);
      if step.Activate? && step.id == id {
        FrontOfAppend(epochs, Epoch(FindLock(s.locks, id), [], [], []));
      } else if !step.AddUser? && !step.EditLock? && step.id == id {
        var e2 := ObserveLive(Last(epochs), s.live[id], step);
        OwnStepTaints(s, Last(epochs), step, id);
        FrontOfAppend(Front(epochs), e2);
      }
    }
  }

  // ------------------------------------------------------------------------------------------
  // Exactly once

  /**
   * In every run the rows of a lock are, as a multiset, the rows before, the accesses its activations
   * reached, and copies of such accesses; and they are exactly the former two, activation by activation
   * and in order, if and only if no save commits after a false failure in its activation.
   */
  lemma {:induction false} RowsAreWhatWasReached(s0: State, run: seq<Step>, id: string)
    requires s0.live == map[] && IsRun(s0, run)
    ensures var epochs, rows := Epochs(s0, run, id), Rows(Exec(s0, run).table, id);
      && multiset(rows) == multiset(Rows(s0.table, id)) + multiset(ReachedOf(epochs)) + multiset(CopiesOf(epochs))
      && (forall x :: x in CopiesOf(epochs) ==> x in ReachedOf(epochs))
      && (forall x :: x in rows <==> x in Rows(s0.table, id) || x in ReachedOf(epochs))
      && (NeverRecommits(s0, run, id) <==> rows == Rows(s0.table, id) + ReachedOf(epochs))
  {
    var epochs, rows0 := Epochs(s0, run, id), Rows(s0.table, id);
    RunIsConsistent(s0, run, id);
    TaintIsInTheHistory(s0, run, id);
    RowsBalance(epochs, id);
    assert multiset(rows0 + DurableOf(epochs)) == multiset(rows0) + multiset(DurableOf(epochs));
    SameMembers(DurableOf(epochs), ReachedOf(epochs), CopiesOf(epochs));
    if CopiesOf(epochs) != [] {
      assert |multiset(DurableOf(epochs))| == |multiset(ReachedOf(epochs))| + |multiset(CopiesOf(epochs))|;
      assert |DurableOf(epochs)| > |ReachedOf(epochs)|;
    }
  }

  lemma {:induction false} RowsAreTheReachedIff(s0: State, run: seq<Step>, id: string)
    requires s0.live == map[] && IsRun(s0, run) && Rows(s0.table, id) == []
    ensures NeverRecommits(s0, run, id) <==> Rows(Exec(s0, run).table, id) == ReachedOf(Epochs(s0, run, id))
  {
    RowsAreWhatWasReached(s0, run, id);
    assert [] + ReachedOf(Epochs(s0, run, id)) == ReachedOf(Epochs(s0, run, id));
  }

  lemma SameMembers<T>(sum: seq<T>, a: seq<T>, b: seq<T>)
    requires multiset(sum) == multiset(a) + multiset(b)
    requires forall x :: x in b ==> x in a
    ensures forall x :: x in sum <==> x in a
  {
    forall x
      ensures x in sum <==> x in a
    {
      assert x in sum <==> x in multiset(sum);
      assert x in a <==> x in multiset(a);
      assert x in b <==> x in multiset(b);
    }
  }

  /** Some of each activation's accesses, from its first, one activation after another. */
  function CutAt(epochs: seq<Epoch>, cuts: seq<nat>): seq<Entry>
    requires |cuts| == |epochs|
  {
    if epochs == [] then [] else CutAt(Front(epochs), Front(cuts)) + Take(Last(epochs).accesses, Last(cuts))
  }

  predicate Distinct<T(==)>(s: seq<T>) {
    forall i, j :: 0 <= i < j < |s| ==> s[i] != s[j]
  }

  /** The new rows of `id` are, activation by activation and in order, the first accesses of each. */
  ghost predicate LogsFirstAccesses(s0: State, run: seq<Step>, id: string)
    requires IsRun(s0, run)
  {
    var epochs := Epochs(s0, run, id);
    exists cuts: seq<nat> | |cuts| == |epochs| ::
      Rows(Exec(s0, run).table, id) == Rows(s0.table, id) + CutAt(epochs, cuts)
  }

  lemma {:induction false} DistinctMeansAtMostOnce<T>(s: seq<T>, x: T)
    requires Distinct(s)
    ensures multiset(s)[x] <= 1
  {
    if s != [] {
      var front := Front(s);
      assert forall i, j :: 0 <= i < j < |front| ==> front[i] == s[i] && front[j] == s[j];
      DistinctMeansAtMostOnce(front, x);
      assert s == front + [Last(s)];
      if Last(s) == x {
        assert x !in front;
        assert multiset(front)[x] == 0;
      }
    }
  }

  lemma {:induction false} CutsAreAccesses(epochs: seq<Epoch>, cuts: seq<nat>)
    requires |cuts| == |epochs|
    ensures multiset(CutAt(epochs, cuts)) <= multiset(AccessesOf(epochs))
  {
    if epochs != [] {
      var accesses, n := Last(epochs).accesses, Last(cuts);
      CutsAreAccesses(Front(epochs), Front(cuts));
      assert accesses == Take(accesses, n) + Drop(accesses, n);
      assert multiset(accesses) == multiset(Take(accesses, n)) + multiset(Drop(accesses, n));
      assert multiset(AccessesOf(epochs)) == multiset(AccessesOf(Front(epochs))) + multiset(accesses);
      assert multiset(CutAt(epochs, cuts)) == multiset(CutAt(Front(epochs), Front(cuts))) + multiset(Take(accesses, n));
    }
  }

  lemma {:induction false} ReachedIsACut(epochs: seq<Epoch>) returns (cuts: seq<nat>)
    ensures |cuts| == |epochs| && CutAt(epochs, cuts) == ReachedOf(epochs)
  {
    cuts := [];
    if epochs != [] {
      var earlier := ReachedIsACut(Front(epochs));
      cuts := earlier + [Reached(Last(epochs).attempts)];
      FrontOfAppend(earlier, Reached(Last(epochs).attempts));
    }
  }

  /**
   * A lock's new rows are, activation by activation and in order, its first accesses - nothing invented,
   * skipped, repeated or reordered - if no save commits after a false failure in its activation; and only
   * then, when no two of the run's accesses on the lock are equal.
   */
  lemma {:induction false} ExactlyOnce(s0: State, run: seq<Step>, id: string)
    requires s0.live == map[] && IsRun(s0, run)
    ensures NeverRecommits(s0, run, id) ==> LogsFirstAccesses(s0, run, id)
    ensures Distinct(AccessesMade(s0, run, id)) ==>
              (NeverRecommits(s0, run, id) <==> LogsFirstAccesses(s0, run, id))
  {
    var epochs := Epochs(s0, run, id);
    RowsAreWhatWasReached(s0, run, id);
    if NeverRecommits(s0, run, id) {
      var cuts := ReachedIsACut(epochs);
    } else if Distinct(AccessesMade(s0, run, id)) {
      CopiesShow(s0, run, id);
    }
  }

  /** A save that commits after a false failure puts accesses in the table twice. */
  lemma {:induction false} CopiesShow(s0: State, run: seq<Step>, id: string)
    requires s0.live == map[] && IsRun(s0, run)
    requires Distinct(AccessesMade(s0, run, id)) && !NeverRecommits(s0, run, id)
    ensures !LogsFirstAccesses(s0, run, id)
  {
    var epochs := Epochs(s0, run, id);
    RunIsConsistent(s0, run, id);
    TaintIsInTheHistory(s0, run, id);
    RowsBalance(epochs, id);
    HistoryIsTheRequests(s0, run, id);
    var rows0 := Rows(s0.table, id);
    forall cuts: seq<nat> | |cuts| == |epochs|
      ensures Rows(Exec(s0, run).table, id) != rows0 + CutAt(epochs, cuts)
    {
      CutsHaveNoCopies(epochs, cuts, CopiesOf(epochs)[0]);
      assert (rows0 + DurableOf(epochs))[|rows0|..] == DurableOf(epochs);
      assert (rows0 + CutAt(epochs, cuts))[|rows0|..] == CutAt(epochs, cuts);
    }
  }

  /** Rows that hold an access twice are no cut of distinct accesses. */
  lemma {:induction false} CutsHaveNoCopies(epochs: seq<Epoch>, cuts: seq<nat>, x: Entry)
    requires |cuts| == |epochs| && Distinct(AccessesOf(epochs))
    requires multiset(DurableOf(epochs)) == multiset(ReachedOf(epochs)) + multiset(CopiesOf(epochs))
    requires x in CopiesOf(epochs) && x in ReachedOf(epochs)
    ensures DurableOf(epochs) != CutAt(epochs, cuts)
  {
    CutsAreAccesses(epochs, cuts);
    DistinctMeansAtMostOnce(AccessesOf(epochs), x);
    assert multiset(ReachedOf(epochs))[x] >= 1 && multiset(CopiesOf(epochs))[x] >= 1;
    assert multiset(DurableOf(epochs))[x] >= 2;
    assert multiset(CutAt(epochs, cuts))[x] <= 1;
  }

  /** From any state whose list can be written, one false failure is enough to write the list twice. */
  lemma {:induction false} FalseFailureWritesTwice(s: State, id: string)
    requires Sane(s) && id in s.live && s.live[id].flight.NoFlight?
    requires s.live[id].grain.cached.Some? && s.live[id].grain.accesses != []
    requires forall e | e in s.live[id].grain.accesses ::
               && e.requester.Some? && e.requester.value in s.users
               && (e.employee == None || e.employee.value in s.users)
    ensures var flush, list := [Tick(id), Commit(id)], s.live[id].grain.accesses;
      var run := flush + [SaveFailed(id)] + flush;
      IsRun(s, run) && Rows(Exec(s, run).table, id) == Rows(s.table, id) + list + list
  {
    var flush := [Tick(id), Commit(id)];
    FlushWrites(s, id);
    var written := Exec(s, flush);
    RunIsSane(s, flush);
    OneMoreStep(s, flush, SaveFailed(id));
    var failed := Next(written, SaveFailed(id));
    NextIsSane(written, SaveFailed(id));
    FlushWrites(failed, id);
    ExecConcat(s, flush + [SaveFailed(id)], flush);
  }

  /** A tick and its commit write the list, and leave it in memory. */
  lemma {:induction false} FlushWrites(s: State, id: string)
    requires Sane(s) && id in s.live && s.live[id].flight.NoFlight?
    requires s.live[id].grain.cached.Some? && s.live[id].grain.accesses != []
    requires forall e | e in s.live[id].grain.accesses ::
               && e.requester.Some? && e.requester.value in s.users
               && (e.employee == None || e.employee.value in s.users)
    ensures var run, list := [Tick(id), Commit(id)], s.live[id].grain.accesses;
      IsRun(s, run) && Rows(Exec(s, run).table, id) == Rows(s.table, id) + list
      && Exec(s, run).table == s.table + list && Exec(s, run).sent == s.sent
      && Exec(s, run).users == s.users && Exec(s, run).locks == s.locks && id in Exec(s, run).live
      && Exec(s, run).live[id].flight == Flight(list, true)
      && Exec(s, run).live[id].grain.cached.Some? && Exec(s, run).live[id].grain.accesses == list
  {
    var ticked := Next(s, Tick(id));
    OneMoreStep(s, [], Tick(id));
    assert [] + [Tick(id)] == [Tick(id)];
    NextIsSane(s, Tick(id));
    forall e | e in ticked.live[id].flight.batch
      ensures Acceptable(ticked, e)
    {
      assert FlushOk(s, id, s.live[id]);
    }
    OneMoreStep(s, [Tick(id)], Commit(id));
    assert [Tick(id)] + [Commit(id)] == [Tick(id), Commit(id)];
    StepEffects(ticked, Commit(id), id);
  }

  // ------------------------------------------------------------------------------------------
  // At least once

  /**
   * In every run, whatever saves report, nothing is lost silently: as multisets, the new rows and the
   * accesses not reached are the accesses and the copies.
   */
  lemma {:induction false} AccessesAreConserved(s0: State, run: seq<Step>, id: string)
    requires s0.live == map[] && IsRun(s0, run)
    ensures var epochs := Epochs(s0, run, id);
      multiset(Rows(Exec(s0, run).table, id)) + multiset(UnreachedOf(epochs))
      == multiset(Rows(s0.table, id)) + multiset(AccessesMade(s0, run, id)) + multiset(CopiesOf(epochs))
  {
    RowsAreWhatWasReached(s0, run, id);
    AccessesBalance(Epochs(s0, run, id));
    HistoryIsTheRequests(s0, run, id);
  }

  /**
   * An access is in the table or among those not reached, and among distinct accesses not both; a row
   * that is there more often than it was accessed is a copy, and of something that is in the table.
   */
  lemma {:induction false} AtLeastOnce(s0: State, run: seq<Step>, id: string, x: Entry)
    requires s0.live == map[] && IsRun(s0, run)
    ensures var epochs, rows, made := Epochs(s0, run, id), Rows(Exec(s0, run).table, id), AccessesMade(s0, run, id);
      && (x in made ==> x in rows || x in UnreachedOf(epochs))
      && (Distinct(made) && x !in Rows(s0.table, id) ==> !(x in rows && x in UnreachedOf(epochs)))
      && (multiset(rows)[x] > multiset(Rows(s0.table, id))[x] + multiset(made)[x] ==> x in CopiesOf(epochs))
  {
    AccessesAreConserved(s0, run, id);
    RowsAreWhatWasReached(s0, run, id);
    AccessesBalance(Epochs(s0, run, id));
    HistoryIsTheRequests(s0, run, id);
    var epochs, rows, made := Epochs(s0, run, id), Rows(Exec(s0, run).table, id), AccessesMade(s0, run, id);
    var left := multiset(rows) + multiset(UnreachedOf(epochs));
    var right := multiset(Rows(s0.table, id)) + multiset(made) + multiset(CopiesOf(epochs));
    assert left[x] == right[x];
    assert left[x] == multiset(rows)[x] + multiset(UnreachedOf(epochs))[x];
    assert x !in CopiesOf(epochs) ==> multiset(CopiesOf(epochs))[x] == 0;
    if Distinct(made) {
      DistinctMeansAtMostOnce(made, x);
      assert multiset(made)[x] == multiset(ReachedOf(epochs))[x] + multiset(UnreachedOf(epochs))[x];
      assert x in ReachedOf(epochs) ==> multiset(ReachedOf(epochs))[x] >= 1;
      assert x in UnreachedOf(epochs) ==> multiset(UnreachedOf(epochs))[x] >= 1;
    }
  }

  /** Within an activation a save that was not removed is contained, from the front, in the next one. */
  lemma {:induction false} FailedBatchesAreRetried(s0: State, run: seq<Step>, id: string, i: nat, k: nat)
    requires s0.live == map[] && IsRun(s0, run)
    requires i < |Epochs(s0, run, id)| && k + 1 < |Epochs(s0, run, id)[i].attempts|
    ensures var attempts := Epochs(s0, run, id)[i].attempts;
      if attempts[k].outcome.Saved?
      then Removed(attempts[..k + 1]) == Removed(attempts[..k]) + attempts[k].batch
      else attempts[k].batch <= attempts[k + 1].batch
  {
    RunIsConsistent(s0, run, id);
    var attempts := Epochs(s0, run, id)[i].attempts;
    assert RetriedAt(attempts, k);
    FrontOfAppend(attempts[..k], attempts[k]);
    assert attempts[..k + 1] == attempts[..k] + [attempts[k]];
  }

  // ------------------------------------------------------------------------------------------
  // What is lost, and when

  /** The part of a live list behind the batch whose commit the grain has yet to see. */
  function Unsaved(a: Activation): seq<Entry> {
    if a.flight.Flight? && a.flight.committed then Drop(a.grain.accesses, |a.flight.batch|) else a.grain.accesses
  }

  predicate IsSuffix<T(==)>(tail: seq<T>, s: seq<T>) {
    |tail| <= |s| && tail == s[|s| - |tail|..]
  }

  /**
   * While an activation lives, the accesses it has not reached are in its list, at the end; and they are
   * all of the list but a committed batch, unless a save of the activation committed and reported failure.
   */
  lemma {:induction false} UnreachedIsInMemory(s0: State, run: seq<Step>, id: string)
    requires s0.live == map[] && IsRun(s0, run) && id in Exec(s0, run).live
    ensures Epochs(s0, run, id) != []
    ensures var a, unreached := Exec(s0, run).live[id], Unreached(Last(Epochs(s0, run, id)));
      && IsSuffix(unreached, Unsaved(a)) && IsSuffix(unreached, a.grain.accesses)
      && (!Tainted(s0, run, id) ==> unreached == Unsaved(a))
  {
    RunIsConsistent(s0, run, id);
    TaintIsInTheHistory(s0, run, id);
    assert FlushOk(Exec(s0, run), id, Exec(s0, run).live[id]);
    UnreachedOfLive(Exec(s0, run), Exec(s0, run).live[id], Last(Epochs(s0, run, id)), id);
  }

  lemma {:induction false} UnreachedOfLive(s: State, a: Activation, e: Epoch, id: string)
    requires FlushOk(s, id, a) && EpochOk(e, id) && LiveOk(a, e)
    ensures IsSuffix(Unreached(e), Unsaved(a)) && IsSuffix(Unreached(e), a.grain.accesses)
    ensures !HasAmbiguous(e.attempts) ==> Unreached(e) == Unsaved(a)
  {
    var list, k := a.grain.accesses, Reached(e.attempts) - |Removed(e.attempts)|;
    ReachedIsWithin(e.accesses, e.attempts);
    DropsAgree(e.accesses, Removed(e.attempts), list, Reached(e.attempts));
    assert Unreached(e) == Drop(list, k);
    if a.flight.Flight? && a.flight.committed {
      assert Unsaved(a) == Drop(list, k);
    } else if !HasAmbiguous(e.attempts) {
      NoTaintNoGap(e.accesses, e.attempts);
    }
  }

  lemma DropsAgree<T>(s: seq<T>, head: seq<T>, tail: seq<T>, n: nat)
    requires s == head + tail && |head| <= n <= |s|
    ensures Drop(s, n) == Drop(tail, n - |head|) && IsSuffix(Drop(tail, n - |head|), tail)
    ensures IsSuffix(Drop(s, n), Drop(s, n)) && Drop(tail, 0) == tail
  {
  }

  /** With no false failure and no commit waiting, exactly what was removed was reached. */
  lemma {:induction false} NoTaintNoGap(accesses: seq<Entry>, attempts: seq<Attempt>)
    requires Orderly(accesses, attempts) && !HasAmbiguous(attempts)
    requires attempts != [] ==> !Last(attempts).outcome.Committed?
    ensures Reached(attempts) == |Removed(attempts)|
  {
    if attempts != [] {
      FrontIsOrderly(accesses, attempts);
      if |attempts| > 1 {
        assert RetriedAt(attempts, |attempts| - 2);
      }
      NoTaintNoGap(accesses, Front(attempts));
    }
  }

  /**
   * Deactivation loses exactly the accesses not reached. Whatever happens later, the others stay in the
   * table; those not reached - the end of the list at that moment - are never written: no attempt of the
   * activation put one in the table, and none of them is there unless an equal entry was accessed elsewhere.
   */
  lemma {:induction false} DeactivationLosesTheTail(s0: State, run: seq<Step>, later: seq<Step>, id: string)
    requires s0.live == map[] && IsRun(s0, run) && id in Exec(s0, run).live
    requires IsRun(s0, run + [Deactivate(id)] + later)
    ensures Epochs(s0, run, id) != []
    ensures var whole := run + [Deactivate(id)] + later;
      var e, a, rows := Last(Epochs(s0, run, id)), Exec(s0, run).live[id], Rows(Exec(s0, whole).table, id);
      && |Epochs(s0, run, id)| <= |Epochs(s0, whole, id)|
      && Epochs(s0, whole, id)[|Epochs(s0, run, id)| - 1] == e
      && e.accesses == ReachedPart(e) + Unreached(e)
      && (forall x :: x in ReachedPart(e) ==> x in rows)
      && IsSuffix(Unreached(e), a.grain.accesses)
      && (!Tainted(s0, run, id) ==> Unreached(e) == Unsaved(a))
      && (Distinct(AccessesMade(s0, whole, id)) ==>
          forall x :: x in Unreached(e) ==> x !in rows || x in Rows(s0.table, id))
  {
    UnreachedIsInMemory(s0, run, id);
    EndedActivationIsKept(s0, run, later, id);
    var n := |Epochs(s0, run, id)| - 1;
    ReachedStaysAndTheRestDoesNotCome(s0, run + [Deactivate(id)] + later, id, n);
  }

  lemma {:induction false} EndedActivationIsKept(s0: State, run: seq<Step>, later: seq<Step>, id: string)
    requires s0.live == map[] && IsRun(s0, run) && id in Exec(s0, run).live && Epochs(s0, run, id) != []
    requires IsRun(s0, run + [Deactivate(id)] + later)
    ensures Epochs(s0, run, id) <= Epochs(s0, run + [Deactivate(id)] + later, id)
  {
    var closed := run + [Deactivate(id)];
    FrontOfAppend(run, Deactivate(id));
    ExecConcat(s0, closed, later);
    assert SetLast(Epochs(s0, run, id), Last(Epochs(s0, run, id))) == Epochs(s0, run, id);
    ClosedEpochsStay(s0, closed, later, id);
  }

  /** For each activation, what it reached is in the table, and what it did not is not. */
  lemma {:induction false} ReachedStaysAndTheRestDoesNotCome(s0: State, run: seq<Step>, id: string, i: nat)
    requires s0.live == map[] && IsRun(s0, run) && i < |Epochs(s0, run, id)|
    ensures var e, rows := Epochs(s0, run, id)[i], Rows(Exec(s0, run).table, id);
      && e.accesses == ReachedPart(e) + Unreached(e)
      && (forall x :: x in ReachedPart(e) ==> x in rows)
      && (Distinct(AccessesMade(s0, run, id)) ==>
          forall x :: x in Unreached(e) ==> x !in rows || x in Rows(s0.table, id))
  {
    PartsMakeAll(Epochs(s0, run, id)[i]);
    PartsAreIncluded(Epochs(s0, run, id), i);
    ReachedIsThere(s0, run, id);
    UnreachedIsNotThere(s0, run, id);
  }

  lemma {:induction false} ReachedIsThere(s0: State, run: seq<Step>, id: string)
    requires s0.live == map[] && IsRun(s0, run)
    ensures forall x :: x in ReachedOf(Epochs(s0, run, id)) ==> x in Rows(Exec(s0, run).table, id)
  {
    RowsAreWhatWasReached(s0, run, id);
  }

  lemma {:induction false} UnreachedIsNotThere(s0: State, run: seq<Step>, id: string)
    requires s0.live == map[] && IsRun(s0, run)
    ensures Distinct(AccessesMade(s0, run, id)) ==>
              forall x :: x in UnreachedOf(Epochs(s0, run, id)) ==>
                x !in Rows(Exec(s0, run).table, id) || x in Rows(s0.table, id)
  {
    forall x | x in UnreachedOf(Epochs(s0, run, id)) && Distinct(AccessesMade(s0, run, id))
      ensures x !in Rows(Exec(s0, run).table, id) || x in Rows(s0.table, id)
    {
      AtLeastOnce(s0, run, id, x);
    }
  }

  /** No attempt of an activation ever put in the table an access beyond the ones it reached. */
  lemma {:induction false} NoCommitPassesTheReach(s0: State, run: seq<Step>, id: string, i: nat, k: nat)
    requires s0.live == map[] && IsRun(s0, run) && i < |Epochs(s0, run, id)|
    requires k < |Epochs(s0, run, id)[i].attempts| && IsDurable(Epochs(s0, run, id)[i].attempts[k].outcome)
    ensures var e := Epochs(s0, run, id)[i];
      Removed(e.attempts[..k]) + e.attempts[k].batch <= ReachedPart(e)
  {
    RunIsConsistent(s0, run, id);
    var e := Epochs(s0, run, id)[i];
    assert StartsAt(e.accesses, e.attempts, k);
    ReachedIsFarthest(e.accesses, e.attempts, k);
    ReachedIsWithin(e.accesses, e.attempts);
  }

  lemma {:induction false} AccessesMadeConcat(s: State, a: seq<Step>, b: seq<Step>, id: string)
    requires IsRun(s, a) && IsRun(s, a + b)
    ensures IsRun(Exec(s, a), b)
    ensures AccessesMade(s, a + b, id) == AccessesMade(s, a, id) + AccessesMade(Exec(s, a), b, id)
    decreases |b|
  {
    ExecConcat(s, a, b);
    if b == [] {
      assert a + b == a;
    } else {
      assert Front(a + b) == a + Front(b) && Last(a + b) == Last(b);
      ExecConcat(s, a, Front(b));
      AccessesMadeConcat(s, a, Front(b), id);
      ConcatAssoc(AccessesMade(s, a, id), AccessesMade(Exec(s, a), Front(b), id),
                  AccessBy(Exec(s, a + Front(b)), Last(b), id));
    }
  }

  lemma {:induction false} AccessesOfConcat(a: seq<Epoch>, b: seq<Epoch>)
    ensures AccessesOf(a + b) == AccessesOf(a) + AccessesOf(b)
  {
    if b == [] {
      assert a + b == a;
    } else {
      assert Front(a + b) == a + Front(b) && Last(a + b) == Last(b);
      AccessesOfConcat(a, Front(b));
      ConcatAssoc(AccessesOf(a), AccessesOf(Front(b)), Last(b).accesses);
    }
  }

  /** Activations that follow start afresh: they hold exactly the accesses made since, and none from before. */
  lemma {:induction false} LaterActivationsStartAfresh(s0: State, run: seq<Step>, later: seq<Step>, id: string)
    requires s0.live == map[] && IsRun(s0, run) && IsRun(s0, run + later)
    requires id !in Exec(s0, run).live
    ensures IsRun(Exec(s0, run), later) && Epochs(s0, run, id) <= Epochs(s0, run + later, id)
    ensures AccessesOf(Epochs(s0, run + later, id)[|Epochs(s0, run, id)|..]) == AccessesMade(Exec(s0, run), later, id)
  {
    ClosedEpochsStay(s0, run, later, id);
    AccessesMadeConcat(s0, run, later, id);
    HistoryIsTheRequests(s0, run, id);
    HistoryIsTheRequests(s0, run + later, id);
    var before, after := Epochs(s0, run, id), Epochs(s0, run + later, id);
    assert after == before + after[|before|..];
    AccessesOfConcat(before, after[|before|..]);
    var made := AccessesMade(s0, run, id);
    assert (made + AccessesOf(after[|before|..]))[|made|..] == AccessesOf(after[|before|..]);
    assert (made + AccessesMade(Exec(s0, run), later, id))[|made|..] == AccessesMade(Exec(s0, run), later, id);
  }

  /** Once an activation has ended, nothing later changes what is recorded of it. */
  lemma {:induction false} ClosedEpochsStay(s0: State, run: seq<Step>, later: seq<Step>, id: string)
    requires s0.live == map[] && IsRun(s0, run) && IsRun(s0, run + later)
    requires id !in Exec(s0, run).live
    ensures Epochs(s0, run, id) <= Epochs(s0, run + later, id)
    ensures id in Exec(s0, run + later).live ==> |Epochs(s0, run, id)| < |Epochs(s0, run + later, id)|
    decreases |later|
  {
    if later == [] {
      assert run + later == run;
    } else {
      assert Front(run + later) == run + Front(later);
      ClosedEpochsStay(s0, run, Front(later), id);
      var closed, current := Epochs(s0, run, id), Epochs(s0, run + Front(later), id);
      ObserveKeepsClosed(closed, current, Exec(s0, run + Front(later)), Last(later), id);
    }
  }

  lemma {:induction false} ObserveKeepsClosed(closed: seq<Epoch>, epochs: seq<Epoch>, s: State, step: Step, id: string)
    requires Enabled(s, step) && closed <= epochs && (id in s.live ==> |closed| < |epochs|)
    ensures closed <= Observe(epochs, s, step, id)
    ensures id in Next(s, step).live ==> |closed| < |Observe(epochs, s, step, id)|
  {
  }
}
