/**
 * The access log when the store may also commit a save late: after the grain was told that it failed, or
 * after the activation that made it has ended. What survives is at-least-once logging.
 */
module LateCommits {
  import opened Common
  import opened Domain
  import opened GrainModel
  import opened AccessLog
  import opened AccessJournal
  import opened AccessDurability

  /** The system, and the batches the store still holds for no one. */
  datatype Late = Late(sys: State, adrift: seq<seq<Entry>>)

  datatype LateStep = Ordinary(step: Step) | LateCommit(index: nat)

  /** The uncommitted batch that a failure or a deactivation leaves with the store. */
  function SetAdrift(s: State, step: Step): seq<seq<Entry>>
    requires Enabled(s, step)
  {
    if (step.SaveFailed? || (step.Deactivate? && s.live[step.id].flight.Flight?)) && !s.live[step.id].flight.committed
    then [s.live[step.id].flight.batch] else []
  }

  predicate LateEnabled(l: Late, step: LateStep) {
    match step
    case Ordinary(ordinary) => Enabled(l.sys, ordinary)
    case LateCommit(i) => i < |l.adrift| && forall e :: e in l.adrift[i] ==> Acceptable(l.sys, e)
  }

  function LateNext(l: Late, step: LateStep): Late
    requires LateEnabled(l, step)
  {
    match step
    case Ordinary(ordinary) => Late(Next(l.sys, ordinary), l.adrift + SetAdrift(l.sys, ordinary))
    case LateCommit(i) =>
      Late(l.sys.(table := l.sys.table + l.adrift[i]), l.adrift[..i] + l.adrift[i + 1..])
  }

  predicate IsLateRun(s0: State, run: seq<LateStep>)
    decreases |run|, 0
  {
    run == [] || (IsLateRun(s0, Front(run)) && LateEnabled(LateExec(s0, Front(run)), Last(run)))
  }

  function LateExec(s0: State, run: seq<LateStep>): Late
    requires IsLateRun(s0, run)
    decreases |run|, 1
  {
    if run == [] then Late(s0, []) else LateNext(LateExec(s0, Front(run)), Last(run))
  }

  lemma {:induction false} OneMoreLateStep(s0: State, run: seq<LateStep>, step: LateStep)
    requires IsLateRun(s0, run) && LateEnabled(LateExec(s0, run), step)
    ensures IsLateRun(s0, run + [step]) && LateExec(s0, run + [step]) == LateNext(LateExec(s0, run), step)
  {
    FrontOfAppend(run, step);
  }

  /** The run without its late commits. */
  function OrdinarySteps(run: seq<LateStep>): seq<Step> {
    if run == [] then []
    else OrdinarySteps(Front(run)) + if Last(run).Ordinary? then [Last(run).step] else []
  }

  /** The rows of a lock that a step commits late, and those of a run. */
  function LateRow(l: Late, step: LateStep, id: string): seq<Entry>
    requires LateEnabled(l, step)
  {
    if step.LateCommit? then Rows(l.adrift[step.index], id) else []
  }

  function LateRows(s0: State, run: seq<LateStep>, id: string): seq<Entry>
    requires IsLateRun(s0, run)
  {
    if run == [] then []
    else LateRows(s0, Front(run), id) + LateRow(LateExec(s0, Front(run)), Last(run), id)
  }

  // ------------------------------------------------------------------------------------------
  // The grains do not notice

  /** `t` is `s` but for its table. */
  predicate SameButTable(s: State, t: State) {
    t == s.(table := t.table)
  }

  lemma {:induction false} TableDoesNotMatter(s: State, t: State, step: Step, id: string)
    requires Sane(s) && SameButTable(s, t) && Enabled(t, step)
    ensures Enabled(s, step) && SameButTable(Next(s, step), Next(t, step))
    ensures SetAdrift(s, step) == SetAdrift(t, step)
    ensures Rows(Next(t, step).table, id) == Rows(t.table, id) + RowsAdded(s, step, id)
  {
    SaneButTable(s, t);
    StepEffects(t, step, id);
  }

  lemma SaneButTable(s: State, t: State)
    requires Sane(s) && SameButTable(s, t)
    ensures Sane(t)
  {
    forall id | id in t.live
      ensures FlushOk(t, id, t.live[id])
    {
      assert FlushOk(s, id, s.live[id]);
    }
  }

  /** Without its late commits a run is a run of the access log: no grain notices them. */
  lemma {:induction false} LateRunsAreRuns(s0: State, run: seq<LateStep>)
    requires s0.live == map[] && IsLateRun(s0, run)
    ensures IsRun(s0, OrdinarySteps(run))
    ensures SameButTable(Exec(s0, OrdinarySteps(run)), LateExec(s0, run).sys) && Sane(LateExec(s0, run).sys)
  {
    if run != [] {
      LateRunsAreRuns(s0, Front(run));
      var steps, l := OrdinarySteps(Front(run)), LateExec(s0, Front(run));
      match Last(run)
      case Ordinary(step) =>
        RunIsSane(s0, steps);
        TableDoesNotMatter(Exec(s0, steps), l.sys, step, "");
        OneMoreStep(s0, steps, step);
        NextIsSane(l.sys, step);
      case LateCommit(i) =>
        assert OrdinarySteps(run) == steps;
        SaneButTable(l.sys, LateExec(s0, run).sys);
    }
  }

  /** The rows of `t` are those of `s` and the late ones. */
  predicate LateRowsExtra(s: State, t: State, id: string, late: seq<Entry>) {
    && multiset(Rows(t.table, id)) == multiset(Rows(s.table, id)) + multiset(late)
    && (late == [] ==> Rows(t.table, id) == Rows(s.table, id))
  }

  /** The rows of a run are those of the run without its late commits and the rows committed late. */
  lemma {:induction false} LateRowsAreExtra(s0: State, run: seq<LateStep>, id: string)
    requires s0.live == map[] && IsLateRun(s0, run)
    ensures IsRun(s0, OrdinarySteps(run))
    ensures LateRowsExtra(Exec(s0, OrdinarySteps(run)), LateExec(s0, run).sys, id, LateRows(s0, run, id))
  {
    LateRunsAreRuns(s0, run);
    if run != [] {
      LateRowsAreExtra(s0, Front(run), id);
      LateRunsAreRuns(s0, Front(run));
      var steps, l := OrdinarySteps(Front(run)), LateExec(s0, Front(run));
      RunIsSane(s0, steps);
      if Last(run).Ordinary? {
        OneMoreStep(s0, steps, Last(run).step);
      } else {
        assert OrdinarySteps(run) == steps;
      }
      LateStepRows(Exec(s0, steps), l, Last(run), id, LateRows(s0, Front(run), id));
    }
  }

  lemma {:induction false} LateStepRows(s: State, l: Late, step: LateStep, id: string, late: seq<Entry>)
    requires Sane(s) && SameButTable(s, l.sys) && LateEnabled(l, step) && LateRowsExtra(s, l.sys, id, late)
    requires step.Ordinary? ==> Enabled(s, step.step)
    ensures LateRowsExtra(if step.Ordinary? then Next(s, step.step) else s, LateNext(l, step).sys, id,
                          late + LateRow(l, step, id))
  {
    match step
    case Ordinary(ordinary) =>
      OrdinaryRows(s, l.sys, ordinary, id, late);
      assert late + [] == late;
    case LateCommit(i) => LateCommitRows(s, l, i, id, late);
  }

  lemma {:induction false} OrdinaryRows(s: State, t: State, step: Step, id: string, late: seq<Entry>)
    requires Sane(s) && SameButTable(s, t) && Enabled(s, step) && Enabled(t, step)
    requires LateRowsExtra(s, t, id, late)
    ensures LateRowsExtra(Next(s, step), Next(t, step), id, late)
  {
    TableDoesNotMatter(s, t, step, id);
    StepEffects(s, step, id);
    var added := RowsAdded(s, step, id);
    SumGrows(Rows(t.table, id), added, Rows(s.table, id), added, late, []);
    assert late + [] == late;
  }

  lemma {:induction false} LateCommitRows(s: State, l: Late, i: nat, id: string, late: seq<Entry>)
    requires LateEnabled(l, LateCommit(i)) && LateRowsExtra(s, l.sys, id, late)
    ensures LateRowsExtra(s, LateNext(l, LateCommit(i)).sys, id, late + LateRow(l, LateCommit(i), id))
  {
    var added := Rows(l.adrift[i], id);
    RowsOfConcat(l.sys.table, l.adrift[i], id);
    SumGrows(Rows(l.sys.table, id), added, Rows(s.table, id), [], late, added);
    assert Rows(s.table, id) + [] == Rows(s.table, id);
  }

  // ------------------------------------------------------------------------------------------
  // Nothing is invented

  predicate WasMade(s0: State, steps: seq<Step>, batch: seq<Entry>)
    requires IsRun(s0, steps)
  {
    forall e :: e in batch ==> e in AccessesMade(s0, steps, e.lockId)
  }

  /** Every entry that is adrift is an access that was made. */
  predicate WereMade(s0: State, steps: seq<Step>, batches: seq<seq<Entry>>)
    requires IsRun(s0, steps)
  {
    forall i :: 0 <= i < |batches| ==> WasMade(s0, steps, batches[i])
  }

  lemma {:induction false} ListsWereMade(s0: State, steps: seq<Step>, id: string, e: Entry)
    requires s0.live == map[] && IsRun(s0, steps)
    requires id in Exec(s0, steps).live && e in Exec(s0, steps).live[id].grain.accesses
    ensures e.lockId == id && e in AccessesMade(s0, steps, id)
  {
    RunIsConsistent(s0, steps, id);
    HistoryIsTheRequests(s0, steps, id);
    var epochs := Epochs(s0, steps, id);
    assert e in Last(epochs).accesses;
  }

  lemma {:induction false} AdriftWereMade(s0: State, run: seq<LateStep>)
    requires s0.live == map[] && IsLateRun(s0, run)
    ensures IsRun(s0, OrdinarySteps(run)) && WereMade(s0, OrdinarySteps(run), LateExec(s0, run).adrift)
  {
    LateRunsAreRuns(s0, run);
    if run != [] {
      AdriftWereMade(s0, Front(run));
      LateRunsAreRuns(s0, Front(run));
      var steps, l := OrdinarySteps(Front(run)), LateExec(s0, Front(run));
      match Last(run)
      case Ordinary(step) => StepKeepsMade(s0, steps, l, step);
      case LateCommit(i) =>
        assert OrdinarySteps(run) == steps;
        RemovalKeepsMade(s0, steps, l.adrift, i);
    }
  }

  lemma RemovalKeepsMade(s0: State, steps: seq<Step>, batches: seq<seq<Entry>>, i: nat)
    requires IsRun(s0, steps) && WereMade(s0, steps, batches) && i < |batches|
    ensures WereMade(s0, steps, batches[..i] + batches[i + 1..])
  {
  }

  lemma {:induction false} StepKeepsMade(s0: State, steps: seq<Step>, l: Late, step: Step)
    requires s0.live == map[] && IsRun(s0, steps) && SameButTable(Exec(s0, steps), l.sys)
    requires Enabled(l.sys, step) && WereMade(s0, steps, l.adrift) && IsRun(s0, steps + [step])
    ensures WereMade(s0, steps + [step], l.adrift + SetAdrift(l.sys, step))
  {
    var s := Exec(s0, steps);
    RunIsConsistent(s0, steps, "");
    FrontOfAppend(steps, step);
    var after := l.adrift + SetAdrift(l.sys, step);
    forall i: nat, e: Entry | i < |after| && e in after[i]
      ensures e in AccessesMade(s0, steps + [step], e.lockId)
    {
      if i < |l.adrift| {
        assert WasMade(s0, steps, l.adrift[i]);
      } else {
        assert FlushOk(s, step.id, s.live[step.id]);
        ListsWereMade(s0, steps, step.id, e);
      }
    }
  }

  lemma {:induction false} LateRowsWereMade(s0: State, run: seq<LateStep>, id: string, x: Entry)
    requires s0.live == map[] && IsLateRun(s0, run) && IsRun(s0, OrdinarySteps(run)) && x in LateRows(s0, run, id)
    ensures x in AccessesMade(s0, OrdinarySteps(run), id)
  {
    var earlier, l := Front(run), LateExec(s0, Front(run));
    AdriftWereMade(s0, earlier);
    if x in LateRows(s0, earlier, id) {
      LateRowsWereMade(s0, earlier, id, x);
    } else {
      assert WasMade(s0, OrdinarySteps(earlier), l.adrift[Last(run).index]);
      RowsAreOfTheTable(l.adrift[Last(run).index], id, x);
    }
    if Last(run).Ordinary? {
      FrontOfAppend(OrdinarySteps(earlier), Last(run).step);
    } else {
      assert OrdinarySteps(run) == OrdinarySteps(earlier);
    }
  }

  lemma {:induction false} RowsAreOfTheTable(table: seq<Entry>, id: string, x: Entry)
    requires x in Rows(table, id)
    ensures x in table && x.lockId == id
  {
    if x !in Rows(table[1..], id) {
      assert x == table[0];
    } else {
      RowsAreOfTheTable(table[1..], id, x);
    }
  }

  // ------------------------------------------------------------------------------------------
  // At least once

  /**
   * Even with late commits every row is one from the start or an access that was made, every access is in
   * the table or not reached by its activation, and an access is there more often than it was made only
   * if a save committed after a false failure, or late, put it there again.
   */
  lemma {:induction false} LateLogIsAtLeastOnce(s0: State, run: seq<LateStep>, id: string, x: Entry)
    requires s0.live == map[] && IsLateRun(s0, run)
    ensures IsRun(s0, OrdinarySteps(run))
    ensures var steps, rows := OrdinarySteps(run), Rows(LateExec(s0, run).sys.table, id);
      var epochs, made := Epochs(s0, steps, id), AccessesMade(s0, steps, id);
      && (x in rows ==> x in Rows(s0.table, id) || x in made)
      && (x in made ==> x in rows || x in UnreachedOf(epochs))
      && multiset(rows) + multiset(UnreachedOf(epochs))
         == multiset(Rows(s0.table, id)) + multiset(made) + multiset(CopiesOf(epochs)) + multiset(LateRows(s0, run, id))
      && (multiset(rows)[x] > multiset(Rows(s0.table, id))[x] + multiset(made)[x] ==>
          x in CopiesOf(epochs) || x in LateRows(s0, run, id))
  {
    LateRowsAreExtra(s0, run, id);
    var steps, late := OrdinarySteps(run), LateRows(s0, run, id);
    var epochs := Epochs(s0, steps, id);
    RowsAreWhatWasReached(s0, steps, id);
    AccessesAreConserved(s0, steps, id);
    AtLeastOnce(s0, steps, id, x);
    ReachedWasMade(s0, steps, id, x);
    if x in late {
      LateRowsWereMade(s0, run, id, x);
    }
    LateCounts(Rows(LateExec(s0, run).sys.table, id), Rows(Exec(s0, steps).table, id), late, x);
  }

  lemma LateCounts(rows: seq<Entry>, ordinary: seq<Entry>, late: seq<Entry>, x: Entry)
    requires multiset(rows) == multiset(ordinary) + multiset(late)
    ensures x in rows <==> x in ordinary || x in late
    ensures x !in late ==> multiset(rows)[x] == multiset(ordinary)[x]
  {
    assert multiset(rows)[x] == multiset(ordinary)[x] + multiset(late)[x];
    assert x in rows <==> x in multiset(rows);
    assert x in ordinary <==> x in multiset(ordinary);
    assert x in late <==> x in multiset(late);
  }

  lemma {:induction false} ReachedWasMade(s0: State, steps: seq<Step>, id: string, x: Entry)
    requires s0.live == map[] && IsRun(s0, steps)
    ensures x in ReachedOf(Epochs(s0, steps, id)) ==> x in AccessesMade(s0, steps, id)
  {
    HistoryIsTheRequests(s0, steps, id);
    var epochs := Epochs(s0, steps, id);
    AccessesBalance(epochs);
    if x in ReachedOf(epochs) {
      assert multiset(ReachedOf(epochs))[x] > 0;
      assert multiset(AccessesOf(epochs))[x] > 0;
    }
  }

  /**
   * A batch of known users that a failure or a deactivation leaves uncommitted can always commit late,
   * and then writes exactly its entries.
   */
  lemma {:induction false} LateCommitWritesTheBatch(s0: State, run: seq<LateStep>, id: string, end: Step)
    requires s0.live == map[] && IsLateRun(s0, run)
    requires end == SaveFailed(id) || end == Deactivate(id)
    requires var s := LateExec(s0, run).sys;
      && id in s.live && s.live[id].flight.Flight? && !s.live[id].flight.committed
      && forall e | e in s.live[id].flight.batch ::
           && e.requester.Some? && e.requester.value in s.users
           && (e.employee == None || e.employee.value in s.users)
    ensures var l := LateExec(s0, run);
      var late := run + [Ordinary(end)] + [LateCommit(|l.adrift|)];
      IsLateRun(s0, late) && LateExec(s0, late).sys.table == l.sys.table + l.sys.live[id].flight.batch
  {
    LateRunsAreRuns(s0, run);
    var l := LateExec(s0, run);
    var batch := l.sys.live[id].flight.batch;
    assert FlushOk(l.sys, id, l.sys.live[id]);
    OneMoreLateStep(s0, run, Ordinary(end));
    var ended := LateNext(l, Ordinary(end));
    assert ended.adrift == l.adrift + [batch] && ended.adrift[|l.adrift|] == batch;
    forall e | e in batch
      ensures Acceptable(ended.sys, e)
    {
      assert e.lockId == id;
    }
    assert LateEnabled(ended, LateCommit(|l.adrift|));
    OneMoreLateStep(s0, run + [Ordinary(end)], LateCommit(|l.adrift|));
  }

  /** The batches a run leaves with the store, and those it commits late. */
  function LeftBehind(s0: State, run: seq<LateStep>): seq<seq<Entry>>
    requires IsLateRun(s0, run)
  {
    if run == [] then []
    else LeftBehind(s0, Front(run)) + Left(LateExec(s0, Front(run)), Last(run))
  }

  function CommittedLate(s0: State, run: seq<LateStep>): seq<seq<Entry>>
    requires IsLateRun(s0, run)
  {
    if run == [] then []
    else CommittedLate(s0, Front(run)) + Released(LateExec(s0, Front(run)), Last(run))
  }

  /** Every batch left behind commits late once or is still with the store; none commits late twice. */
  lemma {:induction false} LateBatchesAreConserved(s0: State, run: seq<LateStep>)
    requires IsLateRun(s0, run)
    ensures multiset(LateExec(s0, run).adrift) + multiset(CommittedLate(s0, run)) == multiset(LeftBehind(s0, run))
  {
    if run != [] {
      var l := LateExec(s0, Front(run));
      LateBatchesAreConserved(s0, Front(run));
      StepKeepsBatches(l, Last(run));
      Balance(LateExec(s0, run).adrift, CommittedLate(s0, Front(run)), Released(l, Last(run)),
              [], LeftBehind(s0, Front(run)), Left(l, Last(run)), l.adrift);
    }
  }

  /** The batch that a step leaves behind, and the one that it commits late. */
  function Left(l: Late, step: LateStep): seq<seq<Entry>>
    requires LateEnabled(l, step)
  {
    if step.Ordinary? then SetAdrift(l.sys, step.step) else []
  }

  function Released(l: Late, step: LateStep): seq<seq<Entry>>
    requires LateEnabled(l, step)
  {
    if step.LateCommit? then [l.adrift[step.index]] else []
  }

  lemma StepKeepsBatches(l: Late, step: LateStep)
    requires LateEnabled(l, step)
    ensures multiset(LateNext(l, step).adrift) + multiset(Released(l, step))
            == multiset(l.adrift) + multiset(Left(l, step))
  {
    if step.LateCommit? {
      assert l.adrift == l.adrift[..step.index] + ([l.adrift[step.index]] + l.adrift[step.index + 1..]);
    }
  }

  /** A lock's rows are those of the run without its late commits exactly if none of them adds a row to it. */
  lemma {:induction false} LateCommitsShowIff(s0: State, run: seq<LateStep>, id: string)
    requires s0.live == map[] && IsLateRun(s0, run)
    ensures IsRun(s0, OrdinarySteps(run))
    ensures Rows(LateExec(s0, run).sys.table, id) == Rows(Exec(s0, OrdinarySteps(run)).table, id)
            <==> LateRows(s0, run, id) == []
  {
    LateRowsAreExtra(s0, run, id);
    var late, ordinary := Rows(LateExec(s0, run).sys.table, id), Rows(Exec(s0, OrdinarySteps(run)).table, id);
    assert |multiset(late)| == |multiset(ordinary)| + |multiset(LateRows(s0, run, id))|;
  }
}
