/**
 * A sealed capture, said of the events of the run: which steps passed and in what order, what the
 * re-checks read from the database, and that a re-check which reads something else ends the capture.
 */
module CaptureEvidence {
  import opened Wrappers
  import opened BackupCapture

  // ---- The order of the steps -----------------------------------------------------------------

  const STEPS: seq<Task> := [
    Prepare, FirstBoundary, ClientVersions, Export, Inspect, Dump, Toc, Dlq, Migration, FinalCatalog,
    FinalSequences, LiveCatalog, LiveTypes, LastBoundary, Revision, Parse, Close, Write, Assemble]

  ghost function StageAfter(p: Protocol, events: seq<Event>, n: nat): Stage
    requires n <= |events|
  {
    Run(p, INITIAL, events[..n]).stage
  }

  /** With event `n` the run goes from step `i` on to the next. */
  ghost predicate PassesAt(p: Protocol, events: seq<Event>, i: nat, n: nat) {
    && i + 1 < |STEPS| && n < |events|
    && StageAfter(p, events, n) == At(STEPS[i]) && StageAfter(p, events, n + 1) == At(STEPS[i + 1])
  }

  /** The first `k` steps have passed, one after the other. */
  ghost predicate InOrder(p: Protocol, events: seq<Event>, k: nat, at: seq<nat>) {
    && |at| == k && k < |STEPS|
    && (forall i :: 0 <= i < k ==> PassesAt(p, events, i, at[i]))
    && (forall i, j :: 0 <= i < j < k ==> at[i] < at[j])
  }

  lemma RankInSteps(t: Task)
    ensures Rank(t) < |STEPS| && STEPS[Rank(t)] == t
    ensures t != Assemble ==> Rank(t) + 1 < |STEPS| && STEPS[Rank(t) + 1] == Following(t)
  {
  }

  lemma StageSnoc(p: Protocol, events: seq<Event>, e: Event)
    ensures forall n: nat :: n <= |events| ==> StageAfter(p, events + [e], n) == StageAfter(p, events, n)
    ensures StageAfter(p, events, |events|) == Run(p, INITIAL, events).stage
    ensures StageAfter(p, events + [e], |events| + 1) == Step(p, Run(p, INITIAL, events), e).stage
  {
    hide Run, Step;
    RunSnoc(p, events, e);
    var all := events + [e];
    forall n: nat | n <= |events| ensures StageAfter(p, all, n) == StageAfter(p, events, n) {
      assert all[..n] == events[..n];
    }
    assert events[..|events|] == events && all[..|events| + 1] == all;
  }

  /** Stages move on one step at a time, or leave the steps. */
  lemma MovesOn(p: Protocol, s: State, e: Event)
    requires s.stage.At? && Step(p, s, e).stage.At?
    ensures Step(p, s, e).stage == s.stage || (s.stage.task != Assemble && Step(p, s, e).stage == At(Following(s.stage.task)))
  {
    hide TypesUnchanged, Record;
  }

  lemma NeverBack(p: Protocol, s: State, e: Event)
    requires !s.stage.At?
    ensures !Step(p, s, e).stage.At?
    ensures s.stage.Recovering? || s.stage.Failed? ==> Step(p, s, e).stage.Recovering? || Step(p, s, e).stage.Failed?
  {
  }

  ghost predicate AtRank(stage: Stage, k: nat) { k < |STEPS| && (stage == At(STEPS[k]) || (stage.Succeeded? && k == 18)) }

  lemma {:induction false} StepsInOrder(p: Protocol, events: seq<Event>, k: nat) returns (at: seq<nat>)
    requires AtRank(Run(p, INITIAL, events).stage, k)
    ensures InOrder(p, events, k, at)
    decreases |events|
  {
    if events == [] {
      RankInSteps(Prepare);
      DistinctSteps(0, k);
      at := [];
    } else {
      var before, e := events[..|events| - 1], events[|events| - 1];
      assert events == before + [e];
      RunSnoc(p, before, e);
      var s := Run(p, INITIAL, before);
      hide Run;
      var j := RankBefore(p, s, e, k);
      at := StepsInOrder(p, before, j);
      StageSnoc(p, before, e);
      hide Step;
      assert forall i :: 0 <= i < j ==> PassesAt(p, before, i, at[i]) && PassesAt(p, events, i, at[i]);
      if j < k {
        assert PassesAt(p, events, j, |before|);
        at := at + [|before|];
      }
    }
  }

  lemma DistinctSteps(i: nat, j: nat)
    requires i < |STEPS| && j < |STEPS| && STEPS[i] == STEPS[j]
    ensures i == j
  {
    RankOfStep(i);
    RankOfStep(j);
  }

  lemma RankOfStep(i: nat)
    requires i < |STEPS|
    ensures Rank(STEPS[i]) == i
  {
  }

  /** The step the run stood at before the event: the same one, or the one before. */
  lemma RankBefore(p: Protocol, s: State, e: Event, k: nat) returns (j: nat)
    requires AtRank(Step(p, s, e).stage, k)
    ensures AtRank(s.stage, j) && (j == k || (j + 1 == k && s.stage == At(STEPS[j]) && Step(p, s, e).stage == At(STEPS[k])))
  {
    if !s.stage.At? {
      NeverBack(p, s, e);
      j := k;
    } else {
      j := Rank(s.stage.task);
      RankInSteps(s.stage.task);
      if Step(p, s, e).stage.At? {
        MovesOn(p, s, e);
        RankOfStep(k);
      } else {
        OnlyAssembleSucceeds(p, s, e);
      }
    }
  }

  lemma OnlyAssembleSucceeds(p: Protocol, s: State, e: Event)
    requires s.stage.At? && Step(p, s, e).stage.Succeeded?
    ensures s.stage.task == Assemble && Rank(Assemble) == 18
  {
    hide TypesUnchanged, Record;
  }

  // ---- What the steps brought back ----------------------------------------------------------------

  /** At step `t` the value came back, and the run went on. */
  ghost predicate Returned(p: Protocol, events: seq<Event>, t: Task, v: Value) {
    exists n :: ReturnedAt(p, events, t, v, n)
  }

  ghost predicate ReturnedAt(p: Protocol, events: seq<Event>, t: Task, v: Value, n: nat) {
    n < |events| && StageAfter(p, events, n) == At(t) && events[n] == Returns(v) && StageAfter(p, events, n + 1).At?
  }

  lemma ReturnedSnoc(p: Protocol, events: seq<Event>, e: Event)
    ensures forall t, v :: Returned(p, events, t, v) ==> Returned(p, events + [e], t, v)
    ensures
      var s := Run(p, INITIAL, events);
      s.stage.At? && e.Returns? && Step(p, s, e).stage.At? ==> Returned(p, events + [e], s.stage.task, e.value)
  {
    StageSnoc(p, events, e);
    hide Run, Step, StageAfter;
    var s, all := Run(p, INITIAL, events), events + [e];
    forall t, v | Returned(p, events, t, v) ensures Returned(p, all, t, v) {
      var n :| ReturnedAt(p, events, t, v, n);
      assert ReturnedAt(p, all, t, v, n);
    }
    if s.stage.At? && e.Returns? && Step(p, s, e).stage.At? {
      assert ReturnedAt(p, all, s.stage.task, e.value, |events|);
    }
  }

  /** Whatever a run that has not been aborted knows came back at the step it was asked for. */
  ghost predicate Known(p: Protocol, events: seq<Event>, f: Facts) {
    && (f.first.Some? ==> Returned(p, events, FirstBoundary, Text(f.first.value)))
    && (f.inventory.Some? ==> Returned(p, events, Inspect, Inspected(f.inventory.value)))
    && (f.catalog.Some? ==> Returned(p, events, FinalCatalog, Text(f.catalog.value)))
    && (f.sequences.Some? ==> Returned(p, events, FinalSequences, Text(f.sequences.value)))
    && (f.liveCatalog.Some? ==> Returned(p, events, LiveCatalog, Text(f.liveCatalog.value)))
    && (f.liveTables.Some? ==> Returned(p, events, LiveTypes, Typed(f.liveTables.value)))
    && (f.last.Some? ==> Returned(p, events, LastBoundary, Text(f.last.value)))
  }

  /** A step that leaves the run on its way changes at most the fact it was asked for. */
  lemma OneFact(p: Protocol, s: State, e: Event)
    requires Step(p, s, e).stage.At? || Step(p, s, e).stage.Succeeded?
    ensures s.stage.At? || s.stage.Succeeded?
    ensures
      var f, g := s.facts, Step(p, s, e).facts;
      g == f || (s.stage.At? && e.Returns? && Step(p, s, e).stage.At? && Learns(f, g, s.stage.task, e.value))
  {
    hide TypesUnchanged;
  }

  ghost predicate Learns(f: Facts, g: Facts, t: Task, v: Value) {
    match (t, v)
    case (FirstBoundary, Text(x)) => g == f.(first := Some(x))
    case (Inspect, Inspected(x)) => g == f.(inventory := Some(x))
    case (FinalCatalog, Text(x)) => g == f.(catalog := Some(x))
    case (FinalSequences, Text(x)) => g == f.(sequences := Some(x))
    case (LiveCatalog, Text(x)) => g == f.(liveCatalog := Some(x))
    case (LiveTypes, Typed(x)) => g == f.(liveTables := Some(x))
    case (LastBoundary, Text(x)) => g == f.(last := Some(x))
    case _ => g == f
  }

  lemma StillKnown(p: Protocol, before: seq<Event>, after: seq<Event>, f: Facts)
    requires Known(p, before, f)
    requires forall t, v :: Returned(p, before, t, v) ==> Returned(p, after, t, v)
    ensures Known(p, after, f)
  {
    hide Returned;
  }

  lemma LearnedIsKnown(p: Protocol, events: seq<Event>, f: Facts, g: Facts, t: Task, v: Value)
    requires Known(p, events, f) && Learns(f, g, t, v) && Returned(p, events, t, v)
    ensures Known(p, events, g)
  {
    hide Returned;
  }

  lemma {:induction false} FactsAreKnown(p: Protocol, events: seq<Event>)
    ensures
      var s := Run(p, INITIAL, events);
      s.stage.At? || s.stage.Succeeded? ==> Known(p, events, s.facts)
    decreases |events|
  {
    if events != [] {
      var before, e := events[..|events| - 1], events[|events| - 1];
      assert events == before + [e];
      var s := Run(p, INITIAL, before);
      FactsAreKnown(p, before);
      RunSnoc(p, before, e);
      hide Run, Step, Returned, Known, Learns;
      ReturnedSnoc(p, before, e);
      if Step(p, s, e).stage.At? || Step(p, s, e).stage.Succeeded? {
        OneFact(p, s, e);
        StillKnown(p, before, events, s.facts);
        if Step(p, s, e).facts != s.facts {
          LearnedIsKnown(p, events, s.facts, Step(p, s, e).facts, s.stage.task, e.value);
        }
      }
    }
  }

  // ---- Said of a sealed manifest ---------------------------------------------------------------------

  /**
   * A run that seals has passed every step in order, and what it read agrees: the sequences and
   * the catalog were read twice with the same result, and every live column was captured with the
   * type chain it has.
   */
  lemma SealedEvidence(p: Protocol, events: seq<Event>)
      returns (first: string, last: string, inventory: Inventory, catalog: string, live: map<string, Columns>, at: seq<nat>)
    requires Run(p, INITIAL, events).files.sealedWith.Some?
    ensures InOrder(p, events, 18, at)
    ensures Returned(p, events, FirstBoundary, Text(first)) && Returned(p, events, LastBoundary, Text(last))
    ensures Returned(p, events, Inspect, Inspected(inventory)) && Returned(p, events, FinalSequences, Text(inventory.sequences))
    ensures Returned(p, events, FinalCatalog, Text(catalog)) && Returned(p, events, LiveCatalog, Text(catalog))
    ensures Returned(p, events, LiveTypes, Typed(live))
    ensures forall t :: t in live ==> t in inventory.tables
    ensures forall t, c :: t in live && c in live[t] ==> c in inventory.tables[t] && inventory.tables[t][c] == live[t][c]
  {
    hide Run, Returned, TypesUnchanged;
    var s := Run(p, INITIAL, events);
    SealedOnlyWhenVouched(p, events);
    FactsAreKnown(p, events);
    RunKeeps(p, events);
    OneArtifactPerOutcome(p, events);
    RankInSteps(Assemble);
    first, last, inventory := s.facts.first.value, s.facts.last.value, s.facts.inventory.value;
    catalog, live := s.facts.catalog.value, s.facts.liveTables.value;
    at := StepsInOrder(p, events, 18);
  }

  /** A re-check that reads something else than what was captured, in any state at that step. */
  predicate Contradicts(f: Facts, t: Task, v: Value) {
    match (t, v)
    case (FinalSequences, Text(x)) => f.inventory.Some? ==> x != f.inventory.value.sequences
    case (LiveCatalog, Text(x)) => f.catalog != Some(x)
    case (LiveTypes, Typed(x)) => f.inventory.Some? ==> exists t :: t in x && Changed(f.inventory.value.tables, t, x[t])
    case _ => false
  }

  /** The live table was not captured, or a column of it was not, or with another chain. */
  predicate Changed(tables: map<string, Columns>, t: string, live: Columns) {
    t !in tables || exists c :: c in live && (c !in tables[t] || tables[t][c] != live[c])
  }

  /** Such a reading aborts the capture, and no aborted capture ever seals, whatever happens after. */
  lemma ContradictionNeverSeals(p: Protocol, events: seq<Event>, v: Value, more: seq<Event>)
    requires Run(p, INITIAL, events).stage.At?
    requires Contradicts(Run(p, INITIAL, events).facts, Run(p, INITIAL, events).stage.task, v)
    ensures
      var end := Run(p, INITIAL, events + [Returns(v)] + more);
      (end.stage.Recovering? || end.stage.Failed?) && end.files.sealedWith.None?
  {
    var s := Run(p, INITIAL, events);
    RunSnoc(p, events, Returns(v));
    hide Run;
    Aborts(p, s, v);
    hide Step;
    AbortedNeverSeals(p, events + [Returns(v)], more);
  }

  lemma Aborts(p: Protocol, s: State, v: Value)
    requires s.stage.At? && Contradicts(s.facts, s.stage.task, v)
    ensures Step(p, s, Returns(v)) == Abort(s) && (Abort(s).stage.Recovering? || Abort(s).stage.Failed?)
  {
  }

  lemma {:induction false} AbortedNeverSeals(p: Protocol, events: seq<Event>, more: seq<Event>)
    requires var s := Run(p, INITIAL, events); s.stage.Recovering? || s.stage.Failed?
    ensures
      var end := Run(p, INITIAL, events + more);
      (end.stage.Recovering? || end.stage.Failed?) && end.files.sealedWith.None?
    decreases |more|
  {
    if more == [] {
      hide Run;
      assert events + more == events;
      RunKeeps(p, events);
    } else {
      hide Run, Step, Inv;
      var before, e := more[..|more| - 1], more[|more| - 1];
      AbortedNeverSeals(p, events, before);
      assert events + more == events + before + [e];
      RunSnoc(p, events + before, e);
      NeverBack(p, Run(p, INITIAL, events + before), e);
      RunKeeps(p, events + more);
      AbortedUnsealed(Run(p, INITIAL, events + more));
    }
  }

  lemma AbortedUnsealed(s: State)
    requires Inv(s) && (s.stage.Recovering? || s.stage.Failed?)
    ensures s.files.sealedWith.None?
  {
  }

  /** Inspection, dump, migration capture, the last boundary and the parse count only if the keeper is alive after them. */
  lemma PassesOnlyAlive(p: Protocol, s: State, e: Event)
    requires Inv(s) && s.stage.At? && s.stage.task in {Inspect, Dump, Migration, LastBoundary, Parse}
    requires Step(p, s, e).stage.At? && Step(p, s, e).stage != s.stage
    ensures s.keeper.Some? && !s.keeper.value.closed
  {
    hide TypesUnchanged, Observed, Record;
  }

  // ---- How a capture ends -------------------------------------------------------------------------------

  /** No finished run leaves its keeper running, and none still owns one. */
  ghost predicate Released(s: State) {
    !s.held && (s.keeper.Some? ==> s.keeper.value.closed && !s.keeper.value.exit.Running?)
  }

  ghost predicate EndsTogether(s: State) {
    s.keeper.Some? ==> (s.keeper.value.closed <==> !s.keeper.value.exit.Running?)
  }

  lemma ReleaseStep(p: Protocol, s: State, e: Event)
    requires Inv(s) && EndsTogether(s) && (s.stage.Failed? || s.stage.Succeeded? ==> Released(s))
    requires s.stage.Recovering? ==> s.held
    ensures
      var next := Step(p, s, e);
      EndsTogether(next) && (next.stage.Failed? || next.stage.Succeeded? ==> Released(next))
      && (next.stage.Recovering? ==> next.held)
  {
    hide TypesUnchanged, Observed, Record, Trim;
  }

  lemma {:induction false} FinishedRunsRelease(p: Protocol, events: seq<Event>)
    ensures
      var s := Run(p, INITIAL, events);
      && EndsTogether(s) && (s.stage.Failed? || s.stage.Succeeded? ==> Released(s))
      && (s.stage.Recovering? ==> s.held)
    decreases |events|
  {
    if events != [] {
      var before, e := events[..|events| - 1], events[|events| - 1];
      FinishedRunsRelease(p, before);
      RunKeeps(p, before);
      hide Step, EndsTogether, Released;
      ReleaseStep(p, Run(p, INITIAL, before), e);
    }
  }

  /**
   * Every run can be brought to an end, wherever it stands: when the pending step throws, the keeper is
   * killed and the next step throws, it has sealed before or has written the failure record.
   */
  lemma EveryRunCanBeEnded(p: Protocol, events: seq<Event>)
    ensures
      var was := Run(p, INITIAL, events);
      var end := Run(p, INITIAL, events + [Throws, ProcessEnds(NoCode), Continue, Throws]);
      if was.stage.Succeeded? then end.stage.Succeeded? else end.stage.Failed? && end.files.failure
  {
    var s := Run(p, INITIAL, events);
    RunKeeps(p, events);
    FinishedRunsRelease(p, events);
    RunSnoc(p, events, Throws);
    RunSnoc(p, events + [Throws], ProcessEnds(NoCode));
    RunSnoc(p, events + [Throws] + [ProcessEnds(NoCode)], Continue);
    RunSnoc(p, events + [Throws] + [ProcessEnds(NoCode)] + [Continue], Throws);
    assert events + [Throws, ProcessEnds(NoCode), Continue, Throws]
        == events + [Throws] + [ProcessEnds(NoCode)] + [Continue] + [Throws];
    hide Run;
    FourSteps(p, s);
  }

  lemma FourSteps(p: Protocol, s: State)
    requires Inv(s) && EndsTogether(s)
    ensures
      var end := Step(p, Step(p, Step(p, Step(p, s, Throws), ProcessEnds(NoCode)), Continue), Throws);
      if s.stage.Succeeded? then end.stage.Succeeded? else end.stage.Failed? && end.files.failure
  {
    hide TypesUnchanged, Observed, Finish;
  }

  /**
   * While a run waits for its keeper, at the export, at closing or after a failure, only the next turn of
   * the event loop moves it, and only once what it waits for is settled.
   */
  lemma WaitingEnds(p: Protocol, s: State, e: Event)
    requires Inv(s) && EndsTogether(s) && !FromProcess(e)
    requires s.stage in {At(Export), At(Close), Recovering}
    ensures
      var k, next := s.keeper.value, Step(p, s, e);
      var settled := k.exit != Running || (s.stage == At(Export) && k.ready.Exported?);
      if e != Continue || !settled then next == s
      else if s.stage == At(Export) && k.ready.Exported? then next.stage == At(Inspect) && next.held
      else if s.stage == At(Close) && k.exit == Exited(0) && k.acknowledged then next.stage == At(Write)
      else if s.stage == At(Export) && k.ready.Waiting? then next == s
      else next.stage.Failed? && next.files.failure
  {
  }

  /** A manifest is marked incomplete exactly when the assembly behind it failed. */
  lemma {:induction false} IncompleteIff(p: Protocol, events: seq<Event>)
    ensures Run(p, INITIAL, events).files.incomplete <==>
      exists n :: AssemblyThrows(p, events, n)
    decreases |events|
  {
    if events != [] {
      var before, e := events[..|events| - 1], events[|events| - 1];
      assert events == before + [e];
      IncompleteIff(p, before);
      RunSnoc(p, before, e);
      var s := Run(p, INITIAL, before);
      RunKeeps(p, before);
      hide Run;
      StageSnoc(p, before, e);
      IncompleteStep(p, s, e);
      hide Step;
      assert forall n: nat :: n < |before| ==> (AssemblyThrows(p, events, n) <==> AssemblyThrows(p, before, n));
      assert AssemblyThrows(p, events, |before|) <==> s.stage == At(Assemble) && e == Throws;
      hide AssemblyThrows, StageAfter;
    }
  }

  ghost predicate AssemblyThrows(p: Protocol, events: seq<Event>, n: nat) {
    n < |events| && StageAfter(p, events, n) == At(Assemble) && events[n] == Throws
  }

  lemma IncompleteStep(p: Protocol, s: State, e: Event)
    ensures Step(p, s, e).files.incomplete <==> s.files.incomplete || (s.stage == At(Assemble) && e == Throws)
  {
    hide TypesUnchanged, Record, Trim;
  }
}
