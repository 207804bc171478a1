/**
 * The restore drill: its phases, the receipt it fills in, and the receipt parser.
 * Every outside operation is an outcome in `World`, so a claim about all worlds is
 * a claim about a failure at any step, cleanup included.
 */
module BackupRestore {
  import opened Wrappers

  import D = DatabaseParity

  // ---- Evidence ---------------------------------------------------------------------------------

  datatype Artifact = Artifact(sha256: string, bytes: string)

  datatype Identity = Identity(
    cluster: string, databaseOid: string, database: string, serverVersion: string,
    serverStartedAt: string, inRecovery: bool, address: string)

  /** The maintenance-boundary evidence; times are instants. */
  datatype Evidence = Evidence(source: Identity, establishedAt: int, body: string)

  datatype Quiescence = Quiescence(artifact: Artifact, evidence: Evidence, observations: seq<int>)

  datatype SourceManifest = SourceManifest(
    source: Identity, sourceImage: string, startedAt: int, finishedAt: int, quiescence: Quiescence,
    dump: Artifact, tocEntries: nat, inventory: D.Manifest)

  /** The address a server is reached under is not part of its identity. */
  predicate SameDatabase(a: Identity, b: Identity) {
    && a.cluster == b.cluster && a.databaseOid == b.databaseOid && a.database == b.database
    && a.serverVersion == b.serverVersion && a.serverStartedAt == b.serverStartedAt && a.inRecovery == b.inRecovery
  }

  predicate ObservationsWithin(at: seq<int>, from: int, to: int) {
    at == [] || (from <= at[0] <= to && ObservationsWithin(at[1..], at[0], to))
  }

  predicate SourceValid(s: SourceManifest) {
    && D.ManifestValid(s.inventory)
    && SameDatabase(s.source, s.quiescence.evidence.source)
    && s.quiescence.evidence.establishedAt <= s.startedAt <= s.finishedAt
    && ObservationsWithin(s.quiescence.observations, s.startedAt, s.finishedAt)
    && s.inventory.serverVersion == s.source.serverVersion
  }

  function ParseSourceManifest(s: SourceManifest): Option<SourceManifest> {
    if SourceValid(s) then Some(s.(inventory := D.Canonical(s.inventory))) else None
  }

  // ---- The receipt ---------------------------------------------------------------------------------

  datatype Phase =
    Preflight | Staging | Bindings | StartPhase | TocPhase | Restoring | Inspection | ComparisonPhase | Cleanup

  const REQUIRED: set<Phase> :=
    {Preflight, Staging, Bindings, StartPhase, TocPhase, Restoring, Inspection, ComparisonPhase, Cleanup}
  const SQL_ONLY: set<Phase> := REQUIRED - {Bindings, Inspection, ComparisonPhase}

  datatype PhaseOutcome = PhaseOutcome(phase: Phase, ok: bool)
  datatype Error = Error(phase: string, code: string)
  datatype ReceiptKind = Verified | Failed | SqlRestoreOnly
  datatype Reopen = Reopen(port: nat, identity: Identity)

  datatype Receipt = Receipt(
    kind: ReceiptKind, dump: Option<Artifact>, sourceManifest: Option<Artifact>, source: Option<SourceManifest>,
    restored: Option<D.Manifest>, quiescence: Option<Quiescence>, image: string, retained: bool, reopen: Option<Reopen>,
    phases: seq<PhaseOutcome>, comparison: Option<D.Comparison>, errors: seq<Error>)

  predicate NoPhaseTwice(phases: seq<PhaseOutcome>) {
    forall i, j :: 0 <= i < j < |phases| ==> phases[i].phase != phases[j].phase
  }

  predicate PhaseOk(r: Receipt, p: Phase) { PhaseOutcome(p, true) in r.phases }

  predicate AnyFailed(r: Receipt) { exists i :: 0 <= i < |r.phases| && !r.phases[i].ok }

  predicate IsImageDigest(image: string) {
    |image| == 71 && image[..7] == "sha256:" &&
    forall i :: 7 <= i < 71 ==> ('a' <= image[i] <= 'f' || '0' <= image[i] <= '9')
  }

  predicate VerifiedValid(r: Receipt) {
    && r.source.Some? && r.restored.Some? && r.dump.Some? && r.sourceManifest.Some? && r.quiescence.Some?
    && r.errors == []
    && (forall p :: p in REQUIRED ==> PhaseOk(r, p))
    && IsImageDigest(r.image) && r.image == r.source.value.sourceImage
    && (var c := D.CompareDatabaseManifests(r.source.value.inventory, r.restored.value);
        c.Accepted? && c.value.kind == D.Equal && r.comparison == Some(c.value))
    && r.quiescence.value == r.source.value.quiescence
    && r.dump.value == r.source.value.dump
  }

  predicate SqlOnlyValid(r: Receipt) {
    && r.errors == [] && !AnyFailed(r)
    && (forall p :: p in SQL_ONLY ==> PhaseOk(r, p))
    && r.source.None? && r.restored.None? && r.sourceManifest.None? && r.quiescence.None? && r.comparison.None?
    && r.dump.Some?
  }

  predicate ReopenValid(r: Receipt) {
    r.reopen.Some? ==>
      (&& (r.source.Some? ==> r.source.value.source.cluster != r.reopen.value.identity.cluster)
       && r.restored.Some? && r.restored.value.serverVersion == r.reopen.value.identity.serverVersion)
  }

  /** The current receipt format: everything is checked on the canonical source and restored inventories. */
  function ParseRestoreReceipt(r: Receipt): Option<Receipt> {
    if !NoPhaseTwice(r.phases) then None
    else
      var source := if r.source.Some? then ParseSourceManifest(r.source.value) else None;
      if r.source.Some? && source.None? then None
      else if r.restored.Some? && !D.ManifestValid(r.restored.value) then None
      else
        var restored := if r.restored.Some? then Some(D.Canonical(r.restored.value)) else None;
        var parsed := r.(source := source, restored := restored);
        var accepted :=
          && ReopenValid(parsed)
          && match r.kind
             case Verified => VerifiedValid(parsed)
             case SqlRestoreOnly => SqlOnlyValid(parsed)
             case Failed => r.errors != [] || AnyFailed(r);
        if accepted then Some(parsed) else None
  }

  // ---- The outside world ----------------------------------------------------------------------------

  /** An outside operation brings back a value or throws one or more errors. */
  datatype Outcome<X> = Ok(value: X) | Threw(first: Error, more: seq<Error>)

  datatype Scratch = NotRequested | Requested(wellFormed: bool, port: nat, database: string)
  datatype Access = Isolated | RetainedLoopback(port: nat, database: string)

  datatype Options = Options(
    dump: bool, sourceManifest: bool, restoreOnly: bool, listOnly: bool, keep: bool, overwrite: bool, scratch: Scratch)

  datatype World = World(
    makeDirectory: Outcome<()>, receiptExists: bool, archive: Outcome<()>,
    makeStage: Outcome<()>, copyDump: Outcome<Artifact>,
    readSource: Outcome<(Artifact, SourceManifest)>, readQuiescence: Outcome<(Artifact, Evidence)>,
    executionArtifacts: Outcome<()>,
    image: Outcome<string>, runContainer: Outcome<()>, verifyOwner: Outcome<()>, ready: Outcome<()>,
    initial: Outcome<Identity>, toc: Outcome<nat>, restore: Outcome<()>, afterRestore: Outcome<Identity>,
    inspect: Outcome<D.Manifest>, final: Outcome<Identity>,
    verifyCleanup: Outcome<()>, reopened: Outcome<Identity>, removeContainer: Outcome<()>, removeStage: Outcome<()>,
    writeReceipt: Outcome<()>, writeFailure: Outcome<()>)

  function ParseScratchAccess(o: Options): Outcome<Access> {
    match o.scratch
    case NotRequested => Ok(Isolated)
    case Requested(wellFormed, port, database) =>
      if !wellFormed || !o.keep || o.listOnly || o.restoreOnly
      then Threw(Error("preflight", "invalid_scratch_options"), [])
      else Ok(RetainedLoopback(port, database))
  }

  function Errors<X>(t: Outcome<X>): seq<Error> { if t.Threw? then [t.first] + t.more else [] }

  /** What cleanup has to undo. */
  datatype Held = Held(stage: bool, container: bool)

  datatype Attempt = Completed | Aborted(phase: Phase, errors: seq<Error>)

  function Fail(phase: Phase, name: string, code: string): Attempt { Aborted(phase, [Error(name, code)]) }

  function Oks(phases: seq<Phase>): seq<PhaseOutcome> {
    if phases == [] then [] else [PhaseOutcome(phases[0], true)] + Oks(phases[1..])
  }

  /** The phases a mode goes through before cleanup. */
  function Plan(o: Options): seq<Phase> {
    if o.listOnly then [Preflight, Staging, StartPhase, TocPhase]
    else if o.restoreOnly then [Preflight, Staging, StartPhase, TocPhase, Restoring]
    else [Preflight, Staging, Bindings, StartPhase, TocPhase, Restoring, Inspection, ComparisonPhase]
  }

  /** A list-only run never marks its last two phases as done. */
  function Marked(o: Options): nat { if o.listOnly then 2 else |Plan(o)| }

  /** The outcomes recorded when the first `k` phases of the plan are behind. */
  function Recorded(o: Options, k: nat): seq<PhaseOutcome>
    requires k <= |Plan(o)|
  {
    Oks(Plan(o)[..if k < Marked(o) then k else Marked(o)])
  }

  const EMPTY: Receipt :=
    Receipt(Failed, None, None, None, None, None, "", false, None, [], None, [])

  predicate SourceAdopted(r: Receipt) {
    r.source.Some? ==> ParseSourceManifest(r.source.value) == r.source && r.quiescence == Some(r.source.value.quiescence)
  }

  predicate RestoredAdopted(r: Receipt) {
    r.restored.Some? ==> D.ParseDatabaseManifest(r.restored.value) == D.Accepted(r.restored.value)
  }

  /** What a run has established at any point where it can stop. */
  predicate Sound(o: Options, r: Receipt) {
    && r.kind == (if o.restoreOnly then SqlRestoreOnly else Failed)
    && r.errors == [] && SourceAdopted(r) && RestoredAdopted(r)
    && (r.reopen.Some? ==> !o.restoreOnly && !o.listOnly && r.comparison.Some?)
    && ((o.restoreOnly || o.listOnly) ==>
          r.source.None? && r.sourceManifest.None? && r.quiescence.None? && r.restored.None? && r.comparison.None?)
    && (r.comparison.Some? ==>
          (&& r.source.Some? && r.restored.Some?
           && D.CompareDatabaseManifests(r.source.value.inventory, r.restored.value) == D.Accepted(r.comparison.value)))
  }

  /** Every check of the full drill has passed. */
  predicate Proven(w: World, r: Receipt) {
    && r.source.Some? && r.restored.Some? && r.dump.Some? && r.comparison.Some?
    && w.readSource.Ok? && r.sourceManifest == Some(w.readSource.value.0)
    && r.source == ParseSourceManifest(w.readSource.value.1)
    && (var s := r.source.value;
        && Bound(w, s) && r.dump == Some(s.dump)
        && w.image == Ok(s.sourceImage) && r.image == s.sourceImage && IsImageDigest(r.image)
        && w.toc == Ok(s.tocEntries)
        && w.initial.Ok? && w.initial.value.cluster != s.source.cluster
        && w.initial.value.serverVersion == s.source.serverVersion
        && w.afterRestore.Ok? && SameDatabase(w.initial.value, w.afterRestore.value)
        && w.final.Ok? && SameDatabase(w.initial.value, w.final.value))
    && r.comparison.value.kind == D.Equal
    && (r.reopen.Some? ==> r.reopen.value.identity == w.final.value.(inRecovery := false))
  }

  // ---- What each phase needs ------------------------------------------------------------------------

  predicate Full(o: Options) { !o.restoreOnly && !o.listOnly }

  /** The source manifest a full drill adopts. */
  function SourceOf(o: Options, w: World): Option<SourceManifest> {
    if Full(o) && w.readSource.Ok? then ParseSourceManifest(w.readSource.value.1) else None
  }

  predicate PreflightPasses(o: Options, w: World) {
    && w.makeDirectory.Ok? && (w.receiptExists ==> o.overwrite && w.archive.Ok?)
    && o.dump && ParseScratchAccess(o).Ok?
    && (Full(o) ==> o.sourceManifest) && !(o.restoreOnly && o.sourceManifest)
  }

  /** The artifacts read outside are the ones the source manifest names. */
  predicate Bound(w: World, s: SourceManifest) {
    w.copyDump == Ok(s.dump) && w.readQuiescence == Ok((s.quiescence.artifact, s.quiescence.evidence))
  }

  predicate BindingsPass(o: Options, w: World) {
    SourceOf(o, w).Some? && w.executionArtifacts.Ok? && Bound(w, SourceOf(o, w).value)
  }

  predicate ImagePasses(o: Options, w: World) {
    && w.image.Ok? && IsImageDigest(w.image.value)
    && (SourceOf(o, w).Some? ==> SourceOf(o, w).value.sourceImage == w.image.value)
  }

  /** The scratch server is up, is not the source, and has the source's version. */
  predicate ScratchStarts(o: Options, w: World) {
    && w.runContainer.Ok? && w.verifyOwner.Ok? && w.ready.Ok? && w.initial.Ok?
    && !w.initial.value.inRecovery
    && w.initial.value.database == (match ParseScratchAccess(o) case Ok(RetainedLoopback(_, name)) => name case _ => "loom")
    && (SourceOf(o, w).Some? ==>
          (&& w.initial.value.cluster != SourceOf(o, w).value.source.cluster
           && w.initial.value.serverVersion == SourceOf(o, w).value.source.serverVersion))
  }

  predicate ContentsMatch(o: Options, w: World) {
    && SourceOf(o, w).Some? && w.inspect.Ok? && D.ParseDatabaseManifest(w.inspect.value).Accepted?
    && (var c := D.CompareDatabaseManifests(SourceOf(o, w).value.inventory, D.ParseDatabaseManifest(w.inspect.value).value);
        c.Accepted? && c.value.kind == D.Equal)
  }

  /** The condition under which a phase that is reached is done. */
  predicate PhasePasses(o: Options, w: World, p: Phase) {
    match p
    case Preflight => PreflightPasses(o, w)
    case Staging => w.makeStage.Ok? && w.copyDump.Ok?
    case Bindings => BindingsPass(o, w)
    case StartPhase => ImagePasses(o, w) && (o.listOnly || ScratchStarts(o, w))
    case TocPhase => w.toc.Ok? && (SourceOf(o, w).Some? ==> w.toc.value == SourceOf(o, w).value.tocEntries)
    case Restoring =>
      w.restore.Ok? && w.afterRestore.Ok? && w.initial.Ok? && SameDatabase(w.initial.value, w.afterRestore.value)
    case Inspection =>
      && w.inspect.Ok? && D.ParseDatabaseManifest(w.inspect.value).Accepted?
      && w.final.Ok? && w.initial.Ok? && SameDatabase(w.initial.value, w.final.value)
    case ComparisonPhase => ContentsMatch(o, w)
    case Cleanup => true
  }

  predicate PassesUpTo(o: Options, w: World, k: nat)
    requires k <= |Plan(o)|
  {
    forall j :: 0 <= j < k ==> PhasePasses(o, w, Plan(o)[j])
  }

  predicate AllPass(o: Options, w: World) { PassesUpTo(o, w, |Plan(o)|) }

  /** The run is in a phase of its plan: the ones before it have passed and are recorded. */
  ghost predicate Reached(o: Options, w: World, r: Receipt, phase: Phase) {
    exists k :: 0 <= k < |Plan(o)| && phase == Plan(o)[k] && r.phases == Recorded(o, k) && PassesUpTo(o, w, k)
  }

  lemma PassesStep(o: Options, w: World, k: nat)
    requires k < |Plan(o)| && PassesUpTo(o, w, k) && PhasePasses(o, w, Plan(o)[k])
    ensures PassesUpTo(o, w, k + 1)
  {
    hide PhasePasses, Plan;
  }

  lemma NotAllPass(o: Options, w: World, r: Receipt, phase: Phase)
    requires Reached(o, w, r, phase) && !PhasePasses(o, w, phase)
    ensures !AllPass(o, w)
  {
    hide PhasePasses, Plan, Recorded;
  }

  /** What the full drill adopts as restored inventory, and records for reopening the kept container. */
  function RestoredOf(w: World): Option<D.Manifest> {
    if w.inspect.Ok? && D.ParseDatabaseManifest(w.inspect.value).Accepted?
    then Some(D.ParseDatabaseManifest(w.inspect.value).value) else None
  }

  function ReopenOf(o: Options, w: World): Option<Reopen> {
    match ParseScratchAccess(o)
    case Ok(RetainedLoopback(port, _)) =>
      if Full(o) && w.final.Ok? then Some(Reopen(port, w.final.value.(inRecovery := false))) else None
    case _ => None
  }

  // ---- The phases ---------------------------------------------------------------------------------

  method PreflightChecks(o: Options, w: World) returns (attempt: Attempt, access: Access)
    ensures attempt.Completed? <==> PreflightPasses(o, w)
    ensures attempt.Completed? ==> ParseScratchAccess(o) == Ok(access)
    ensures attempt.Aborted? ==> attempt.phase == Preflight && attempt.errors != []
  {
    access := Isolated;
    if w.makeDirectory.Threw? { return Aborted(Preflight, Errors(w.makeDirectory)), access; }
    if w.receiptExists {
      if !o.overwrite { return Fail(Preflight, "preflight", "receipt_exists"), access; }
      if w.archive.Threw? { return Aborted(Preflight, Errors(w.archive)), access; }
    }
    if !o.dump { return Fail(Preflight, "preflight", "missing_dump"), access; }
    var parsed := ParseScratchAccess(o);
    if parsed.Threw? { return Aborted(Preflight, Errors(parsed)), access; }
    access := parsed.value;
    if !o.restoreOnly && !o.listOnly && !o.sourceManifest {
      return Fail(Preflight, "preflight", "missing_source_manifest"), access;
    }
    if o.restoreOnly && o.sourceManifest { return Fail(Preflight, "preflight", "ambiguous_mode"), access; }
    attempt := Completed;
  }

  /** Reads the source manifest and checks every artifact it binds. */
  method BindSource(o: Options, w: World, r0: Receipt) returns (attempt: Attempt, r: Receipt)
    requires Full(o) && w.copyDump.Ok? && r0.dump == Some(w.copyDump.value) && r0.source.None? && r0.quiescence.None?
    ensures r.(sourceManifest := r0.sourceManifest, source := None, quiescence := None) == r0
    ensures SourceAdopted(r)
    ensures attempt.Completed? <==> BindingsPass(o, w)
    ensures attempt.Completed? ==>
      w.readSource.Ok? && r.source == SourceOf(o, w) && r.sourceManifest == Some(w.readSource.value.0)
    ensures attempt.Aborted? ==> attempt.phase == Bindings && attempt.errors != []
  {
    r := r0;
    if w.readSource.Threw? { return Aborted(Bindings, Errors(w.readSource)), r; }
    var (artifact, raw) := w.readSource.value;
    r := r.(sourceManifest := Some(artifact));
    var source := ParseSourceManifest(raw);
    if source.None? { return Fail(Bindings, "bindings", "operation_failed"), r; }
    r := r.(source := source, quiescence := Some(source.value.quiescence));
    ParseSourceIdempotent(raw);
    if w.readQuiescence.Threw? { return Aborted(Bindings, Errors(w.readQuiescence)), r; }
    var (quiescenceArtifact, evidence) := w.readQuiescence.value;
    if w.executionArtifacts.Threw? { return Aborted(Bindings, Errors(w.executionArtifacts)), r; }
    if w.copyDump.value != source.value.dump
      || quiescenceArtifact != source.value.quiescence.artifact
      || evidence != source.value.quiescence.evidence
    {
      return Fail(Bindings, "bindings", "operation_failed"), r;
    }
    attempt := Completed;
  }

  lemma ParseSourceIdempotent(s: SourceManifest)
    ensures ParseSourceManifest(s).Some? ==> ParseSourceManifest(ParseSourceManifest(s).value) == ParseSourceManifest(s)
  {
    hide D.ManifestValid, D.Canonical;
    if D.ManifestValid(s.inventory) {
      D.ParseIdempotent(s.inventory);
      D.CanonicalKeepsRest(s.inventory);
    }
  }

  lemma SourceIsParsed(o: Options, w: World)
    ensures Full(o) && w.readSource.Ok? ==> SourceOf(o, w) == ParseSourceManifest(w.readSource.value.1)
  {
  }

  /** Starts the scratch container and restores into it; in full mode also inspects and compares. */
  method RunScratch(o: Options, w: World, access: Access, r0: Receipt, held0: Held)
    returns (attempt: Attempt, r: Receipt, held: Held)
    requires !o.listOnly && Sound(o, r0) && r0.dump.Some? && r0.comparison.None? && r0.reopen.None? && r0.restored.None?
    requires !r0.retained && r0.phases == Recorded(o, if o.restoreOnly then 2 else 3)
    requires ParseScratchAccess(o) == Ok(access) && r0.source == SourceOf(o, w)
    requires PassesUpTo(o, w, if o.restoreOnly then 2 else 3) && ImagePasses(o, w)
    requires w.image == Ok(r0.image) && IsImageDigest(r0.image)
    requires !o.restoreOnly ==> r0.source.Some? && Bound(w, r0.source.value)
    requires !o.restoreOnly ==> w.readSource.Ok? && r0.sourceManifest == Some(w.readSource.value.0)
    requires !o.restoreOnly ==> r0.image == r0.source.value.sourceImage && r0.dump == Some(r0.source.value.dump)
    ensures Sound(o, r) && r.retained == false && (r.reopen.Some? ==> o.keep && held.container)
    ensures r.dump == r0.dump && r.image == r0.image
    ensures attempt.Completed? ==> r.phases == Recorded(o, |Plan(o)|) && r.dump.Some?
    ensures attempt.Completed? && !o.restoreOnly ==> Proven(w, r) && r.restored == RestoredOf(w)
    ensures attempt.Completed? ==> r.reopen == ReopenOf(o, w) && held == held0.(container := true)
    ensures attempt.Completed? ==> AllPass(o, w)
    ensures attempt.Aborted? ==> attempt.errors != [] && Reached(o, w, r, attempt.phase) && !PhasePasses(o, w, attempt.phase)
  {
    hide D.CompareDatabaseManifests, D.ParseDatabaseManifest, ParseSourceManifest, Recorded, SameDatabase, IsImageDigest,
         PassesUpTo, ContentsMatch, SourceOf;
    var start := if o.restoreOnly then 2 else 3;
    SourceIsParsed(o, w);
    RecordedStep(o, start);
    RecordedStep(o, start + 1);
    RecordedStep(o, start + 2);
    r, held := r0, held0;
    assert Reached(o, w, r, StartPhase);
    if w.runContainer.Threw? { return Aborted(StartPhase, Errors(w.runContainer)), r, held; }
    if w.verifyOwner.Threw? { return Aborted(StartPhase, Errors(w.verifyOwner)), r, held; }
    held := held.(container := true);
    if w.ready.Threw? { return Aborted(StartPhase, Errors(w.ready)), r, held; }
    if w.initial.Threw? { return Aborted(StartPhase, Errors(w.initial)), r, held; }
    var initial := w.initial.value;
    var database := if access.RetainedLoopback? then access.database else "loom";
    if initial.database != database || initial.inRecovery
      || (r.source.Some? && (initial.cluster == r.source.value.source.cluster
                             || initial.serverVersion != r.source.value.source.serverVersion))
    {
      return Fail(StartPhase, "start", "scratch_database_mismatch"), r, held;
    }
    r := r.(phases := r.phases + [PhaseOutcome(StartPhase, true)]);

    PassesStep(o, w, start);
    assert Reached(o, w, r, TocPhase);
    if w.toc.Threw? { return Aborted(TocPhase, Errors(w.toc)), r, held; }
    if r.source.Some? && w.toc.value != r.source.value.tocEntries {
      return Fail(TocPhase, "toc", "toc_mismatch"), r, held;
    }
    r := r.(phases := r.phases + [PhaseOutcome(TocPhase, true)]);

    PassesStep(o, w, start + 1);
    assert Reached(o, w, r, Restoring);
    if w.restore.Threw? { return Aborted(Restoring, Errors(w.restore)), r, held; }
    if w.afterRestore.Threw? { return Aborted(Restoring, Errors(w.afterRestore)), r, held; }
    if !SameDatabase(initial, w.afterRestore.value) { return Fail(Restoring, "restore", "operation_failed"), r, held; }
    r := r.(phases := r.phases + [PhaseOutcome(Restoring, true)]);
    PassesStep(o, w, start + 2);
    if o.restoreOnly { return Completed, r, held; }

    RecordedStep(o, start + 3);
    attempt, r := InspectAndCompare(o, w, access, r);
  }

  lemma RecordedStep(o: Options, k: nat)
    requires k < Marked(o)
    ensures Recorded(o, 0) == []
    ensures Recorded(o, k + 1) == Recorded(o, k) + [PhaseOutcome(Plan(o)[k], true)]
  {
    assert Plan(o)[..k + 1] == Plan(o)[..k] + [Plan(o)[k]];
    OksSnoc(Plan(o)[..k], Plan(o)[k]);
  }

  lemma {:induction false} OksSnoc(phases: seq<Phase>, p: Phase)
    ensures Oks(phases + [p]) == Oks(phases) + [PhaseOutcome(p, true)]
    decreases |phases|
  {
    if phases == [] {
      assert phases + [p] == [p];
      assert [p][1..] == [];
    } else {
      assert (phases + [p])[1..] == phases[1..] + [p];
      OksSnoc(phases[1..], p);
    }
  }

  /** The two phases that only the full drill has. */
  method InspectAndCompare(o: Options, w: World, access: Access, r0: Receipt) returns (attempt: Attempt, r: Receipt)
    requires !o.listOnly && !o.restoreOnly && Sound(o, r0) && r0.comparison.None? && r0.reopen.None?
    requires r0.phases == Recorded(o, 6) && r0.source.Some? && w.initial.Ok? && PassesUpTo(o, w, 6)
    requires ParseScratchAccess(o) == Ok(access) && r0.source == SourceOf(o, w)
    requires w.initial.value.cluster != r0.source.value.source.cluster
    ensures Sound(o, r)
    ensures r.(restored := None, comparison := None, reopen := None, phases := []) ==
            r0.(restored := None, comparison := None, reopen := None, phases := [])
    ensures r.reopen.Some? ==> access.RetainedLoopback? && attempt.Completed?
    ensures attempt.Aborted? ==> attempt.errors != [] && Reached(o, w, r, attempt.phase) && !PhasePasses(o, w, attempt.phase)
    ensures attempt.Completed? ==> AllPass(o, w) && r.reopen == ReopenOf(o, w)
    ensures attempt.Completed? ==> r.phases == Recorded(o, 8) && r.restored.Some? && r.restored == RestoredOf(w)
    ensures attempt.Completed? ==> r.comparison.Some? && r.comparison.value.kind == D.Equal
    ensures attempt.Completed? ==> w.final.Ok? && SameDatabase(w.initial.value, w.final.value)
    ensures r.reopen.Some? ==> r.reopen.value.identity.cluster != r.source.value.source.cluster
  {
    hide D.ManifestValid, D.Canonical, D.CompareParsed, PassesUpTo, Recorded, ParseSourceManifest;
    RecordedStep(o, 6);
    RecordedStep(o, 7);
    r := r0;
    assert Reached(o, w, r, Inspection) by { assert Plan(o)[6] == Inspection; }
    if w.inspect.Threw? { return Aborted(Inspection, Errors(w.inspect)), r; }
    var parsed := D.ParseDatabaseManifest(w.inspect.value);
    if parsed.Rejected? { return Fail(Inspection, "inspection", "operation_failed"), r; }
    D.ParseIdempotent(w.inspect.value);
    r := r.(restored := Some(parsed.value));
    if w.final.Threw? { return Aborted(Inspection, Errors(w.final)), r; }
    if !SameDatabase(w.initial.value, w.final.value) { return Fail(Inspection, "inspection", "operation_failed"), r; }
    r := r.(phases := r.phases + [PhaseOutcome(Inspection, true)]);

    PassesStep(o, w, 6);
    assert Reached(o, w, r, ComparisonPhase) by { assert Plan(o)[7] == ComparisonPhase; }
    var compared := D.CompareDatabaseManifests(r.source.value.inventory, r.restored.value);
    if compared.Rejected? { return Fail(ComparisonPhase, "comparison", "operation_failed"), r; }
    r := r.(comparison := Some(compared.value));
    if compared.value.kind != D.Equal { return Fail(ComparisonPhase, "comparison", "content_mismatch"), r; }
    r := r.(phases := r.phases + [PhaseOutcome(ComparisonPhase, true)]);
    PassesStep(o, w, 7);
    if access.RetainedLoopback? {
      r := r.(reopen := Some(Reopen(access.port, w.final.value.(inRecovery := false))));
    }
    attempt := Completed;
  }

  /** The phases before a container is needed: preflight, staging, and in full mode the bindings. */
  method Prepare(o: Options, w: World) returns (attempt: Attempt, r: Receipt, held: Held, access: Access)
    ensures Sound(o, r) && r.comparison.None? && r.reopen.None? && r.restored.None? && !r.retained && !held.container
    ensures attempt.Completed? ==>
      (var k := if Full(o) then 3 else 2; r.phases == Recorded(o, k) && PassesUpTo(o, w, k))
    ensures attempt.Completed? ==> held.stage && ParseScratchAccess(o) == Ok(access)
    ensures attempt.Completed? ==> w.copyDump.Ok? && r.dump == Some(w.copyDump.value) && r.source == SourceOf(o, w)
    ensures attempt.Completed? && Full(o) ==>
      w.readSource.Ok? && r.sourceManifest == Some(w.readSource.value.0) && BindingsPass(o, w)
    ensures attempt.Aborted? ==> attempt.errors != [] && Reached(o, w, r, attempt.phase) && !PhasePasses(o, w, attempt.phase)
  {
    hide D.CompareDatabaseManifests, D.ParseDatabaseManifest, ParseSourceManifest, SameDatabase, Oks, PassesUpTo,
         PreflightPasses, ScratchStarts, ContentsMatch, ImagePasses, Recorded;
    held := Held(false, false);
    r := EMPTY.(kind := if o.restoreOnly then SqlRestoreOnly else Failed);
    RecordedStep(o, 0);
    RecordedStep(o, 1);
    PassesNothing(o, w);
    assert Reached(o, w, r, Preflight) by { assert r.phases == Recorded(o, 0) && Plan(o)[0] == Preflight; }
    attempt, access := PreflightChecks(o, w);
    if attempt.Aborted? { return; }
    r := r.(phases := r.phases + [PhaseOutcome(Preflight, true)]);
    PassesStep(o, w, 0);

    assert Reached(o, w, r, Staging) by { assert r.phases == Recorded(o, 1) && Plan(o)[1] == Staging; }
    if w.makeStage.Threw? { return Aborted(Staging, Errors(w.makeStage)), r, held, access; }
    held := held.(stage := true);
    if w.copyDump.Threw? { return Aborted(Staging, Errors(w.copyDump)), r, held, access; }
    r := r.(dump := Some(w.copyDump.value));
    r := r.(phases := r.phases + [PhaseOutcome(Staging, true)]);
    PassesStep(o, w, 1);

    assert r.phases == Recorded(o, 2);
    if !o.restoreOnly && !o.listOnly {
      RecordedStep(o, 2);
      assert Plan(o)[2] == Bindings;
      attempt, r := BindSource(o, w, r);
      assert Reached(o, w, r, Bindings) by { assert r.phases == Recorded(o, 2); }
      if attempt.Aborted? { return; }
      r := r.(phases := r.phases + [PhaseOutcome(Bindings, true)]);
      PassesStep(o, w, 2);
    }
  }

  /** Dump and image of the receipt are those that were used. */
  predicate Staged(w: World, r: Receipt) { w.copyDump.Ok? && w.image.Ok? && r.dump == Some(w.copyDump.value) && r.image == w.image.value }

  /** Everything up to cleanup; `held` tells cleanup what exists by then. */
  method RunPhases(o: Options, w: World) returns (attempt: Attempt, r: Receipt, held: Held)
    ensures Sound(o, r)
    ensures attempt.Completed? <==> AllPass(o, w)
    ensures attempt.Completed? ==> r.phases == Recorded(o, |Plan(o)|) && r.dump.Some? && held == Held(true, !o.listOnly)
    ensures attempt.Completed? ==> r.reopen == ReopenOf(o, w) && Staged(w, r)
    ensures attempt.Completed? && Full(o) ==> Proven(w, r) && r.restored == RestoredOf(w)
    ensures attempt.Aborted? ==> attempt.errors != [] && Reached(o, w, r, attempt.phase) && !PhasePasses(o, w, attempt.phase)
    ensures r.retained == false && (r.reopen.Some? ==> o.keep && held.container)
  {
    hide D.CompareDatabaseManifests, D.ParseDatabaseManifest, ParseSourceManifest, SameDatabase, Oks, PassesUpTo,
         PreflightPasses, ScratchStarts, ContentsMatch, Recorded, AllPass, Reached;
    var access;
    attempt, r, held, access := Prepare(o, w);
    if attempt.Aborted? { NotAllPass(o, w, r, attempt.phase); return; }

    ghost var k := if Full(o) then 3 else 2;
    NowIn(o, w, r, k);
    if !PhasePasses(o, w, StartPhase) { NotAllPass(o, w, r, StartPhase); }
    if w.image.Threw? { return Aborted(StartPhase, Errors(w.image)), r, held; }
    if !IsImageDigest(w.image.value) { return Fail(StartPhase, "start", "operation_failed"), r, held; }
    r := r.(image := w.image.value);
    NowIn(o, w, r, k);
    if r.source.Some? && r.source.value.sourceImage != w.image.value {
      return Fail(StartPhase, "start", "image_mismatch"), r, held;
    }
    if o.listOnly {
      ListedIsUnmarked(o);
      PassesStep(o, w, 2);
      NowIn(o, w, r, 3);
      if w.toc.Threw? { NotAllPass(o, w, r, TocPhase); return Aborted(TocPhase, Errors(w.toc)), r, held; }
      PassesStep(o, w, 3);
      PassedAll(o, w);
      return Completed, r, held;
    }
    attempt, r, held := RunScratch(o, w, access, r, held);
    if attempt.Aborted? { NotAllPass(o, w, r, attempt.phase); }
  }

  lemma NowIn(o: Options, w: World, r: Receipt, k: nat)
    requires k < |Plan(o)| && r.phases == Recorded(o, k) && PassesUpTo(o, w, k)
    ensures Reached(o, w, r, Plan(o)[k])
  {
  }

  lemma PassedAll(o: Options, w: World)
    requires PassesUpTo(o, w, |Plan(o)|)
    ensures AllPass(o, w)
  {
  }

  lemma PassesNothing(o: Options, w: World)
    ensures PassesUpTo(o, w, 0)
  {
  }

  lemma ListedIsUnmarked(o: Options)
    requires o.listOnly
    ensures Recorded(o, 2) == Recorded(o, 3) == Recorded(o, 4)
  {
  }

  // ---- Cleanup ------------------------------------------------------------------------------------

  /** The container is still ours and is removed, or kept and found to be the restored server; the stage is removed. */
  predicate CleanUpPasses(o: Options, w: World, held: Held, reopen: Option<Reopen>) {
    && (held.container ==>
          (&& w.verifyCleanup.Ok?
           && (if o.keep then reopen.Some? ==> w.reopened.Ok? && SameDatabase(reopen.value.identity, w.reopened.value)
               else w.removeContainer.Ok?)))
    && (held.stage ==> w.removeStage.Ok?)
  }

  /** Releases what the run holds; the receipt learns of a kept container, and of a failure. */
  method CleanUp(o: Options, w: World, held: Held, r0: Receipt) returns (r: Receipt)
    ensures r == r0.(retained := r.retained, phases := r.phases, errors := r.errors)
    ensures r.phases == r0.phases + [PhaseOutcome(Cleanup, r.errors == r0.errors)]
    ensures r0.errors <= r.errors
    ensures r.errors == r0.errors <==> CleanUpPasses(o, w, held, r0.reopen)
    ensures r.retained <==> r0.retained || (held.container && w.verifyCleanup.Ok? && o.keep)
  {
    r := r0;
    var problem: seq<Error> := [];
    if held.container {
      if w.verifyCleanup.Threw? {
        problem := [w.verifyCleanup.first];
      } else if o.keep {
        r := r.(retained := true);
        if r.reopen.Some? {
          if w.reopened.Threw? { problem := [w.reopened.first]; }
          else if !SameDatabase(r.reopen.value.identity, w.reopened.value) { problem := [Error("cleanup", "operation_failed")]; }
        }
      } else if w.removeContainer.Threw? {
        problem := [w.removeContainer.first];
      }
    }
    if problem == [] && held.stage && w.removeStage.Threw? { problem := [w.removeStage.first]; }
    if problem == [] {
      r := r.(phases := r.phases + [PhaseOutcome(Cleanup, true)]);
    } else {
      r := r.(errors := r.errors + problem, phases := r.phases + [PhaseOutcome(Cleanup, false)]);
    }
  }

  // ---- Sealing the receipt -----------------------------------------------------------------------------

  function Required(kind: ReceiptKind): set<Phase> { if kind == SqlRestoreOnly then SQL_ONLY else REQUIRED }

  predicate AllOk(r: Receipt, phases: set<Phase>) { forall p :: p in phases ==> PhaseOk(r, p) }

  /** The receipt as it is offered to the parser: comparison recomputed, and claimed verified in full mode. */
  function Offered(r: Receipt): Receipt {
    var claimed := if r.kind == SqlRestoreOnly then r else r.(kind := Verified);
    if r.source.None? || r.restored.None? then claimed
    else
      var c := D.CompareDatabaseManifests(r.source.value.inventory, r.restored.value);
      if c.Accepted? then claimed.(comparison := Some(c.value)) else claimed
  }

  /** Nothing went wrong, every required phase is done, the comparison finds no difference, and the parser agrees. */
  predicate Sealable(r: Receipt) {
    && r.errors == [] && AllOk(r, Required(r.kind))
    && (r.source.Some? && r.restored.Some? ==>
          D.CompareDatabaseManifests(r.source.value.inventory, r.restored.value).Accepted?)
    && (Offered(r).comparison.Some? ==> Offered(r).comparison.value.kind == D.Equal)
    && ParseRestoreReceipt(Offered(r)).Some?
  }

  /** Recomputes the comparison, and writes either a receipt that parses or a failed one. */
  method FinalizeRestoreEvidence(r0: Receipt, w: World) returns (code: int, written: Option<Receipt>)
    requires !r0.kind.Verified?
    ensures code == if Sealable(r0) && w.writeReceipt.Ok? then 0 else 1
    ensures code == 0 ==> written == ParseRestoreReceipt(Offered(r0))
    ensures code == 1 ==> (written.Some? <==> w.writeFailure.Ok?)
    ensures code == 1 && written.Some? ==>
      written.value == r0.(kind := Failed, reopen := None, comparison := written.value.comparison, errors := written.value.errors)
    ensures code == 1 && written.Some? ==> written.value.errors != [] && r0.errors <= written.value.errors
  {
    hide D.CompareDatabaseManifests, D.ManifestValid, D.Canonical, ParseRestoreReceipt, PhaseOk;
    var r := r0;
    var thrown := false;
    if r.source.Some? && r.restored.Some? {
      var compared := D.CompareDatabaseManifests(r.source.value.inventory, r.restored.value);
      if compared.Rejected? { thrown := true; } else { r := r.(comparison := Some(compared.value)); }
    }
    if !thrown {
      if r.comparison.Some? && r.comparison.value.kind == D.Different
        && (forall i :: 0 <= i < |r.errors| ==> r.errors[i].code != "content_mismatch")
      {
        r := r.(errors := r.errors + [Error("comparison", "content_mismatch")]);
      }
      SamePhases(r0, r);
      if r.errors == [] && AllOk(r, Required(r.kind)) {
        var completed := if r.kind == SqlRestoreOnly then r else r.(kind := Verified);
        var parsed := ParseRestoreReceipt(completed);
        if parsed.Some? && w.writeReceipt.Ok? { return 0, parsed; }
        thrown := true;
      }
    }
    if thrown { r := r.(errors := r.errors + [Error("finalization", "operation_failed")]); }
    if r.errors == [] { r := r.(errors := [Error("finalization", "incomplete_phases")]); }
    r := r.(reopen := None, kind := Failed);
    return 1, if w.writeFailure.Ok? then Some(r) else None;
  }

  lemma SamePhases(a: Receipt, b: Receipt)
    requires a.phases == b.phases
    ensures forall ps :: AllOk(a, ps) <==> AllOk(b, ps)
  {
  }

  // ---- Written receipts can be read back --------------------------------------------------------------

  lemma ParseReceiptIdempotent(r: Receipt)
    requires ParseRestoreReceipt(r).Some?
    ensures ParseRestoreReceipt(ParseRestoreReceipt(r).value) == ParseRestoreReceipt(r)
  {
    hide D.CompareDatabaseManifests, D.ManifestValid, D.Canonical, PhaseOk, SourceValid;
    if r.source.Some? { ParseSourceIdempotent(r.source.value); }
    if r.restored.Some? { D.ParseIdempotent(r.restored.value); }
  }

  lemma FailedReceiptParses(r: Receipt)
    requires r.kind == Failed && r.errors != [] && r.reopen.None? && NoPhaseTwice(r.phases)
    requires SourceAdopted(r) && RestoredAdopted(r)
    ensures ParseRestoreReceipt(r) == Some(r)
  {
    hide D.ManifestValid, D.Canonical, SourceValid;
  }

  /** A receipt accepted as verified: all nine phases, no error, equal inventories, matching image and bindings. */
  ghost predicate FullParity(r: Receipt) {
    && AllOk(r, REQUIRED) && r.errors == [] && NoPhaseTwice(r.phases)
    && r.source.Some? && r.restored.Some? && r.sourceManifest.Some?
    && (var s := r.source.value;
        && D.SameContent(s.inventory, r.restored.value)
        && r.image == s.sourceImage && r.dump == Some(s.dump) && r.quiescence == Some(s.quiescence))
  }

  lemma VerifiedMeansParity(r: Receipt)
    requires ParseRestoreReceipt(r).Some? && r.kind == Verified
    ensures FullParity(ParseRestoreReceipt(r).value)
  {
    hide D.CompareDatabaseManifests, D.ManifestValid, D.Canonical, SourceValid, PhaseOk;
    ParsedKeepsPhases(r);
  }

  lemma ParsedKeepsPhases(r: Receipt)
    requires ParseRestoreReceipt(r).Some?
    ensures ParseRestoreReceipt(r).value.phases == r.phases && ParseRestoreReceipt(r).value.kind == r.kind
    ensures NoPhaseTwice(r.phases)
  {
    hide D.CompareDatabaseManifests, D.ManifestValid, D.Canonical, SourceValid, PhaseOk;
  }

  // ---- The whole run -----------------------------------------------------------------------------------

  lemma PlanHasNoRepeats(o: Options, k: nat, last: Phase, lastOk: bool)
    requires k <= |Plan(o)| && (k < |Plan(o)| ==> last == Plan(o)[k]) && (k == |Plan(o)| ==> last == Cleanup)
    ensures NoPhaseTwice(Recorded(o, k) + (if k < |Plan(o)| then [PhaseOutcome(last, false)] else []) + [PhaseOutcome(Cleanup, lastOk)])
  {
    var n := if k < Marked(o) then k else Marked(o);
    var plan := Plan(o);
    PlanDistinct(o);
    OksAt(plan[..n]);
    var phases := Recorded(o, k) + (if k < |plan| then [PhaseOutcome(last, false)] else []) + [PhaseOutcome(Cleanup, lastOk)];
    assert forall i :: 0 <= i < n ==> phases[i].phase == plan[i];
    assert n < |phases| && (phases[n].phase == if k < |plan| then plan[k] else Cleanup);
    hide Plan, Marked, Recorded;
    forall i, j | 0 <= i < j < |phases| ensures phases[i].phase != phases[j].phase {
      assert i < n ==> plan[i] != Cleanup;
    }
  }

  lemma PlanDistinct(o: Options)
    ensures forall i, j :: 0 <= i < j < |Plan(o)| ==> Plan(o)[i] != Plan(o)[j]
    ensures Cleanup !in Plan(o)
  {
  }

  lemma {:induction false} OksAt(phases: seq<Phase>)
    ensures |Oks(phases)| == |phases| && forall i :: 0 <= i < |phases| ==> Oks(phases)[i] == PhaseOutcome(phases[i], true)
    decreases |phases|
  {
    if phases != [] { OksAt(phases[1..]); }
  }

  lemma PlanIsRequired(o: Options, ok: bool)
    requires !o.listOnly && ok
    ensures
      var phases := Recorded(o, |Plan(o)|) + [PhaseOutcome(Cleanup, ok)];
      && (forall p :: p in (if o.restoreOnly then SQL_ONLY else REQUIRED) ==> PhaseOutcome(p, true) in phases)
      && (forall i :: 0 <= i < |phases| ==> phases[i].ok)
  {
    OksAt(Plan(o)[..|Plan(o)|]);
    var phases := Recorded(o, |Plan(o)|) + [PhaseOutcome(Cleanup, true)];
    assert forall i :: 0 <= i < |Plan(o)| ==> phases[i] == PhaseOutcome(Plan(o)[i], true);
    assert phases[|Plan(o)|] == PhaseOutcome(Cleanup, true);
    forall p | p in (if o.restoreOnly then SQL_ONLY else REQUIRED) ensures PhaseOutcome(p, true) in phases {
      assert p == Cleanup || p in Plan(o);
    }
  }

  /**
   * A reopen record names a server that is not the source and has the restored version: equal inventories
   * carry the source's version to the restored one, and the scratch server was started with it.
   */
  lemma ReopenIsRestored(o: Options, w: World, r: Receipt)
    requires Sound(o, r.(phases := [])) && Proven(w, r)
    ensures ReopenValid(r)
    ensures forall t: Receipt :: t.source == r.source && t.restored == r.restored && t.reopen == r.reopen ==> ReopenValid(t)
  {
    hide D.CompareDatabaseManifests, D.ManifestValid, D.Canonical, IsImageDigest;
    D.EqualMeansSameVersion(r.source.value.inventory, r.restored.value);
    assert SourceValid(r.source.value);
  }

  /** The same of the world alone: when every phase passes, the server to be reopened has the restored version. */
  lemma PassingReopensRestored(o: Options, w: World)
    requires AllPass(o, w) && ReopenOf(o, w).Some?
    ensures RestoredOf(w).Some? && RestoredOf(w).value.serverVersion == ReopenOf(o, w).value.identity.serverVersion
  {
    hide D.CompareDatabaseManifests, D.ManifestValid, D.Canonical;
    var plan := Plan(o);
    assert plan[3] == StartPhase && plan[6] == Inspection && plan[7] == ComparisonPhase;
    assert PhasePasses(o, w, plan[3]) && PhasePasses(o, w, plan[6]) && PhasePasses(o, w, plan[7]);
    D.CanonicalKeepsRest(w.readSource.value.1.inventory);
    D.EqualMeansSameVersion(SourceOf(o, w).value.inventory, RestoredOf(w).value);
  }

  /** A full drill that went clean always seals. */
  lemma CleanFullDrillSeals(o: Options, w: World, r: Receipt)
    requires !o.restoreOnly && !o.listOnly && Sound(o, r.(phases := [])) && Proven(w, r)
    requires r.phases == Recorded(o, |Plan(o)|) + [PhaseOutcome(Cleanup, true)]
    ensures Sealable(r) && ParseRestoreReceipt(Offered(r)) == Some(r.(kind := Verified))
  {
    hide D.CompareDatabaseManifests, D.ManifestValid, D.Canonical, SourceValid, Recorded, ReopenValid, SameDatabase,
         IsImageDigest, Bound;
    ReopenIsRestored(o, w, r);
    PlanIsRequired(o, true);
    PlanHasNoRepeats(o, |Plan(o)|, Cleanup, true);
    assert Recorded(o, |Plan(o)|) + [] == Recorded(o, |Plan(o)|);
    assert NoPhaseTwice(r.phases);
  }

  lemma CleanSqlDrillSeals(o: Options, r: Receipt)
    requires o.restoreOnly && !o.listOnly && Sound(o, r.(phases := [])) && r.dump.Some?
    requires r.phases == Recorded(o, |Plan(o)|) + [PhaseOutcome(Cleanup, true)]
    ensures Sealable(r) && ParseRestoreReceipt(Offered(r)) == Some(r)
  {
    hide D.CompareDatabaseManifests, D.ManifestValid, D.Canonical, SourceValid, Recorded;
    PlanIsRequired(o, true);
    PlanHasNoRepeats(o, |Plan(o)|, Cleanup, true);
    assert Recorded(o, |Plan(o)|) + [] == Recorded(o, |Plan(o)|);
    assert NoPhaseTwice(r.phases);
  }

  /** A phase recorded as done did pass, one recorded as failed did not. */
  predicate Honest(o: Options, w: World, phases: seq<PhaseOutcome>) {
    forall i :: 0 <= i < |phases| && phases[i].phase != Cleanup ==> (phases[i].ok <==> PhasePasses(o, w, phases[i].phase))
  }

  lemma RecordedIsHonest(o: Options, w: World, k: nat)
    requires k <= |Plan(o)| && PassesUpTo(o, w, k)
    ensures Honest(o, w, Recorded(o, k))
  {
    hide PhasePasses, Plan;
    OksAt(Plan(o)[..if k < Marked(o) then k else Marked(o)]);
  }

  /**
   * What has to go right for exit 0: every phase of the mode's plan, cleanup, and outside list-only mode
   * writing the receipt.
   */
  predicate Succeeds(o: Options, w: World) {
    && AllPass(o, w)
    && CleanUpPasses(o, w, Held(true, !o.listOnly), ReopenOf(o, w))
    && (!o.listOnly ==> w.writeReceipt.Ok?)
  }

  /**
   * One drill, whatever the world does. `r` is the receipt before sealing, `written` what ends up on disk.
   * The exit code is 0 exactly when nothing went wrong; no phase is recorded twice; whatever is
   * written reads back; and `Verified` is only ever written with full parity proven in this run.
   */
  method RunRestoreDrill(o: Options, w: World) returns (code: int, written: Option<Receipt>, r: Receipt)
    ensures NoPhaseTwice(r.phases) && Honest(o, w, r.phases)
    ensures written.Some? ==> ParseRestoreReceipt(written.value) == written && written.value.phases == r.phases
    ensures code == 0 <==> Succeeds(o, w)
    ensures o.listOnly && code == 0 ==> written.None?
    ensures !o.listOnly && code == 0 ==>
      written.Some? && written.value.kind == if o.restoreOnly then SqlRestoreOnly else Verified
    ensures written.Some? && written.value.kind == Verified ==> FullParity(written.value) && Proven(w, written.value)
    ensures code != 0 && written.Some? ==> written.value.kind == Failed && written.value.errors != []
    ensures !o.listOnly && code == 0 ==>
      written.value.retained == o.keep && written.value.reopen == ReopenOf(o, w) && Staged(w, written.value)
    ensures Full(o) && code == 0 ==> written.value.restored == RestoredOf(w)
  {
    hide D.CompareDatabaseManifests, D.ManifestValid, D.Canonical, SourceValid, Recorded, ParseRestoreReceipt, Sealable,
         FullParity, Offered, IsImageDigest, SameDatabase, PhasePasses;
    var attempt, held;
    attempt, r, held := RunPhases(o, w);
    if attempt.Aborted? {
      ghost var k :| 0 <= k < |Plan(o)| && attempt.phase == Plan(o)[k] && r.phases == Recorded(o, k) && PassesUpTo(o, w, k);
      RecordedIsHonest(o, w, k);
      r := r.(errors := r.errors + attempt.errors, phases := r.phases + [PhaseOutcome(attempt.phase, false)]);
      PlanHasNoRepeats(o, k, attempt.phase, true);
      PlanHasNoRepeats(o, k, attempt.phase, false);
    } else {
      RecordedIsHonest(o, w, |Plan(o)|);
      PlanHasNoRepeats(o, |Plan(o)|, Cleanup, true);
      PlanHasNoRepeats(o, |Plan(o)|, Cleanup, false);
      assert Recorded(o, |Plan(o)|) + [] == Recorded(o, |Plan(o)|);
    }
    assert Honest(o, w, r.phases);
    r := CleanUp(o, w, held, r);
    if r.errors != [] { r := r.(reopen := None); }
    if o.listOnly && r.errors == [] { return 0, None, r; }
    code, written := FinalizeRestoreEvidence(r, w);
    SealedOutcome(o, w, attempt, r, code, written);
  }

  /** Puts the pieces of a finished run together. */
  lemma SealedOutcome(o: Options, w: World, attempt: Attempt, r: Receipt, code: int, written: Option<Receipt>)
    requires NoPhaseTwice(r.phases) && SourceAdopted(r) && RestoredAdopted(r)
    requires r.kind == (if o.restoreOnly then SqlRestoreOnly else Failed)
    requires code == if Sealable(r) && w.writeReceipt.Ok? then 0 else 1
    requires code == 0 ==> written == ParseRestoreReceipt(Offered(r))
    requires code == 1 && written.Some? ==>
      written.value == r.(kind := Failed, reopen := None, comparison := written.value.comparison, errors := written.value.errors)
    requires code == 1 && written.Some? ==> written.value.errors != [] && r.errors <= written.value.errors
    requires o.listOnly ==> r.errors != []
    requires r.errors == [] ==> attempt.Completed? && Sound(o, r.(phases := [], retained := false)) && r.dump.Some?
    requires r.errors == [] ==> r.phases == Recorded(o, |Plan(o)|) + [PhaseOutcome(Cleanup, true)]
    requires r.errors == [] && !o.restoreOnly && !o.listOnly ==> Proven(w, r)
    ensures written.Some? ==> ParseRestoreReceipt(written.value) == written && written.value.phases == r.phases
    ensures code == 0 <==> r.errors == [] && w.writeReceipt.Ok?
    ensures code == 0 ==> written == Some(r.(kind := if o.restoreOnly then SqlRestoreOnly else Verified))
    ensures written.Some? && written.value.kind == Verified ==> FullParity(written.value) && Proven(w, written.value)
    ensures code != 0 && written.Some? ==> written.value.kind == Failed
  {
    hide D.CompareDatabaseManifests, D.ManifestValid, D.Canonical, SourceValid, Recorded, ParseRestoreReceipt, Offered,
         FullParity, IsImageDigest, SameDatabase;
    if r.errors == [] {
      if o.restoreOnly { CleanSqlDrillSeals(o, r); } else { CleanFullDrillSeals(o, w, r); }
    }
    if code == 0 {
      ParseReceiptIdempotent(Offered(r));
      if !o.restoreOnly { VerifiedMeansParity(written.value); }
    } else if written.Some? {
      FailedReceiptParses(written.value);
    }
  }

  // ---- A drill that verifies ----------------------------------------------------------------------

  const DIGEST := "sha256:" + seq(64, _ => '0')

  const EMPTY_INVENTORY: D.Manifest := D.Manifest("sha256", "UTF8", "160004", [], ["public"], [], [])

  const SOURCE_SERVER := Identity("source", "5", "loom", "160004", "monday", false, "here")
  const SCRATCH_SERVER := Identity("scratch", "5", "scratch", "160004", "tuesday", false, "there")
  const STAGED_DUMP := Artifact("d", "1")
  const BOUNDARY := Quiescence(Artifact("q", "2"), Evidence(SOURCE_SERVER, 0, ""), [2])
  const CAPTURED := SourceManifest(SOURCE_SERVER, DIGEST, 1, 3, BOUNDARY, STAGED_DUMP, 7, EMPTY_INVENTORY)
  const DONE: Outcome<()> := Ok(())

  const KEEPING := Options(true, true, false, false, true, false, Requested(true, 5433, "scratch"))

  const KIND_WORLD := World(
    DONE, false, DONE, DONE, Ok(STAGED_DUMP), Ok((Artifact("m", "3"), CAPTURED)), Ok((BOUNDARY.artifact, BOUNDARY.evidence)), DONE,
    Ok(DIGEST), DONE, DONE, DONE, Ok(SCRATCH_SERVER), Ok(7), DONE, Ok(SCRATCH_SERVER),
    Ok(EMPTY_INVENTORY), Ok(SCRATCH_SERVER), DONE, Ok(SCRATCH_SERVER), DONE, DONE, DONE, DONE)

  /** Some world lets a full drill with a kept container succeed, reopen record included. */
  lemma SomeDrillVerifies() returns (o: Options, w: World)
    ensures Full(o) && o.keep && ReopenOf(o, w).Some? && Succeeds(o, w)
  {
    o, w := KEEPING, KIND_WORLD;
    forall j | 0 <= j < |Plan(o)| ensures PhasePasses(o, w, Plan(o)[j])
    {
      KindPhase(Plan(o)[j]);
    }
    hide PhasePasses;
  }

  lemma KindPhase(p: Phase)
    ensures PhasePasses(KEEPING, KIND_WORLD, p)
  {
    CapturedParses();
    EmptyInventoryParses();
    DigestIsDigest();
    hide D.ManifestValid, D.Canonical, D.CompareDatabaseManifests, IsImageDigest, ParseSourceManifest;
  }

  lemma CapturedParses()
    ensures ParseSourceManifest(CAPTURED) == Some(CAPTURED)
  {
    EmptyInventoryParses();
    hide D.ManifestValid, D.Canonical;
  }

  lemma DigestIsDigest()
    ensures IsImageDigest(DIGEST)
  {
    assert DIGEST[..7] == "sha256:";
  }

  lemma EmptyInventoryParses()
    ensures D.ManifestValid(EMPTY_INVENTORY) && D.Canonical(EMPTY_INVENTORY) == EMPTY_INVENTORY
    ensures D.SameContent(EMPTY_INVENTORY, EMPTY_INVENTORY)
  {
    assert D.ManifestValid(EMPTY_INVENTORY);
    D.SameContentIsEquivalence(EMPTY_INVENTORY, EMPTY_INVENTORY, EMPTY_INVENTORY);
  }
}
