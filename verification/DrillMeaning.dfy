/**
 * The restore drill and its receipts, said outright: when a drill of each mode ends with exit code 0, in
 * terms of the options and of what the world brings back, and which receipts the parser accepts.
 */
module DrillMeaning {
  import opened Wrappers
  import opened BackupRestore
  import D = DatabaseParity

  // ---- The parts -----------------------------------------------------------------------------------

  /** The same server and database, reached under whatever address. */
  ghost predicate SameServer(a: Identity, b: Identity) { b == a.(address := b.address) }

  ghost predicate Digest(image: string) {
    |image| == 71 && image[..7] == "sha256:" && forall i :: 7 <= i < 71 ==> image[i] in "0123456789abcdef"
  }

  ghost predicate GoodSource(s: SourceManifest) {
    && D.ManifestValid(s.inventory) && s.inventory.serverVersion == s.source.serverVersion
    && SameServer(s.source, s.quiescence.evidence.source)
    && s.quiescence.evidence.establishedAt <= s.startedAt <= s.finishedAt
    && var at := s.quiescence.observations;
       && (forall i :: 0 <= i < |at| ==> s.startedAt <= at[i] <= s.finishedAt)
       && (forall i, j :: 0 <= i < j < |at| ==> at[i] <= at[j])
  }

  lemma SameServerIff(a: Identity, b: Identity)
    ensures SameDatabase(a, b) <==> SameServer(a, b)
  {
  }

  lemma DigestIff(image: string)
    ensures IsImageDigest(image) <==> Digest(image)
  {
    assert "0123456789abcdef" == ['0', '1', '2', '3', '4', '5', '6', '7', '8', '9', 'a', 'b', 'c', 'd', 'e', 'f'];
    forall c ensures ('a' <= c <= 'f' || '0' <= c <= '9') <==> c in "0123456789abcdef" {
      if '0' <= c <= '9' {
        assert "0123456789abcdef"[c as int - 48] == c;
      } else if 'a' <= c <= 'f' {
        assert "0123456789abcdef"[c as int - 87] == c;
      }
    }
  }

  /** The observations lie in the interval and never go back. */
  lemma {:induction false} ObservationsIff(at: seq<int>, from: int, to: int)
    ensures ObservationsWithin(at, from, to) <==>
      && (forall i :: 0 <= i < |at| ==> from <= at[i] <= to)
      && (forall i, j :: 0 <= i < j < |at| ==> at[i] <= at[j])
    decreases |at|
  {
    if at != [] {
      var rest := at[1..];
      ObservationsIff(rest, at[0], to);
      assert forall i :: 0 <= i < |rest| ==> rest[i] == at[i + 1];
      assert forall i :: 0 < i < |at| ==> at[i] == rest[i - 1];
    }
  }

  lemma GoodSourceIff(s: SourceManifest)
    ensures SourceValid(s) <==> GoodSource(s)
  {
    hide D.ManifestValid;
    SameServerIff(s.source, s.quiescence.evidence.source);
    ObservationsIff(s.quiescence.observations, s.startedAt, s.finishedAt);
  }

  /** A parsed source manifest is the one read, with its inventory in canonical form. */
  lemma ParsedSource(s: SourceManifest)
    ensures ParseSourceManifest(s) == if GoodSource(s) then Some(s.(inventory := D.Canonical(s.inventory))) else None
  {
    hide D.ManifestValid, D.Canonical;
    GoodSourceIff(s);
    hide SourceValid, GoodSource;
  }

  /** Canonical forms compare as what they stand for. */
  lemma CanonicalCompares(a: D.Manifest, b: D.Manifest)
    requires D.ManifestValid(a) && D.ManifestValid(b)
    ensures D.CompareDatabaseManifests(D.Canonical(a), D.Canonical(b)) == D.CompareDatabaseManifests(a, b)
    ensures D.CompareDatabaseManifests(D.Canonical(a), b) == D.CompareDatabaseManifests(a, b)
  {
    D.ParseIdempotent(a);
    D.ParseIdempotent(b);
    hide D.Canonical, D.ManifestValid, D.CompareParsed;
  }

  // ---- Exit code 0 -----------------------------------------------------------------------------------

  ghost predicate RoomForReceipt(o: Options, w: World) {
    w.makeDirectory.Ok? && (!w.receiptExists || (o.overwrite && w.archive.Ok?)) && o.dump
  }

  /** The scratch server came up, is out of recovery and holds the expected database. */
  ghost predicate Started(w: World, database: string) {
    && w.runContainer.Ok? && w.verifyOwner.Ok? && w.ready.Ok?
    && w.initial.Ok? && !w.initial.value.inRecovery && w.initial.value.database == database
  }

  ghost predicate Restored(w: World) {
    w.restore.Ok? && w.initial.Ok? && w.afterRestore.Ok? && SameServer(w.initial.value, w.afterRestore.value)
  }

  /** The container is the drill's own, and is removed or kept as asked, and so is the stage. */
  ghost predicate Cleaned(o: Options, w: World) {
    w.verifyCleanup.Ok? && (o.keep || w.removeContainer.Ok?) && w.removeStage.Ok?
  }

  ghost predicate FullDrillGoesRight(o: Options, w: World) {
    && RoomForReceipt(o, w) && o.sourceManifest && (o.scratch.Requested? ==> o.scratch.wellFormed && o.keep)
    && w.makeStage.Ok? && w.readSource.Ok? && w.executionArtifacts.Ok?
    && var s := w.readSource.value.1;
       && GoodSource(s) && w.copyDump == Ok(s.dump)
       && w.readQuiescence == Ok((s.quiescence.artifact, s.quiescence.evidence))
       && w.image == Ok(s.sourceImage) && Digest(s.sourceImage)
       && Started(w, if o.scratch.Requested? then o.scratch.database else "loom")
       && w.initial.value.cluster != s.source.cluster && w.initial.value.serverVersion == s.source.serverVersion
       && w.toc == Ok(s.tocEntries) && Restored(w)
       && w.inspect.Ok? && D.ManifestValid(w.inspect.value) && D.SameContent(s.inventory, w.inspect.value)
       && w.final.Ok? && SameServer(w.initial.value, w.final.value)
       && Cleaned(o, w)
       && (o.scratch.Requested? ==> w.reopened.Ok? && SameServer(w.final.value.(inRecovery := false), w.reopened.value))
       && w.writeReceipt.Ok?
  }

  ghost predicate SqlDrillGoesRight(o: Options, w: World) {
    && RoomForReceipt(o, w) && !o.sourceManifest && o.scratch.NotRequested?
    && w.makeStage.Ok? && w.copyDump.Ok? && w.image.Ok? && Digest(w.image.value)
    && Started(w, "loom") && w.toc.Ok? && Restored(w) && Cleaned(o, w) && w.writeReceipt.Ok?
  }

  /** Listing starts no server, so only the stage is cleaned up, and writes no receipt. */
  ghost predicate ListingGoesRight(o: Options, w: World) {
    && RoomForReceipt(o, w) && !(o.restoreOnly && o.sourceManifest) && o.scratch.NotRequested?
    && w.makeStage.Ok? && w.copyDump.Ok? && w.image.Ok? && Digest(w.image.value) && w.toc.Ok? && w.removeStage.Ok?
  }

  lemma PlanPasses(o: Options, w: World)
    ensures AllPass(o, w) <==>
      && PhasePasses(o, w, Preflight) && PhasePasses(o, w, Staging) && PhasePasses(o, w, StartPhase)
      && PhasePasses(o, w, TocPhase)
      && (!o.listOnly ==> PhasePasses(o, w, Restoring))
      && (!o.listOnly && !o.restoreOnly ==>
            PhasePasses(o, w, Bindings) && PhasePasses(o, w, Inspection) && PhasePasses(o, w, ComparisonPhase))
  {
    hide PhasePasses;
    var plan := Plan(o);
    if AllPass(o, w) {
      assert PhasePasses(o, w, plan[0]) && PhasePasses(o, w, plan[1]) && PhasePasses(o, w, plan[2]) && PhasePasses(o, w, plan[3]);
      if !o.listOnly { assert PhasePasses(o, w, plan[4]); }
      if !o.listOnly && !o.restoreOnly {
        assert PhasePasses(o, w, plan[5]) && PhasePasses(o, w, plan[6]) && PhasePasses(o, w, plan[7]);
      }
    }
  }

  /** A listing ends with exit code 0 exactly when everything it needs goes right. */
  lemma ListingSucceedsIff(o: Options, w: World)
    requires o.listOnly
    ensures Succeeds(o, w) <==> ListingGoesRight(o, w)
  {
    PlanPasses(o, w);
    hide AllPass, IsImageDigest, Digest;
    if w.image.Ok? { DigestIff(w.image.value); }
  }

  /** So does a drill without source manifest. */
  lemma SqlDrillSucceedsIff(o: Options, w: World)
    requires o.restoreOnly && !o.listOnly
    ensures Succeeds(o, w) <==> SqlDrillGoesRight(o, w)
  {
    PlanPasses(o, w);
    hide AllPass, IsImageDigest, Digest, SameDatabase, SameServer;
    if w.image.Ok? { DigestIff(w.image.value); }
    if w.initial.Ok? && w.afterRestore.Ok? { SameServerIff(w.initial.value, w.afterRestore.value); }
  }

  /** And a full drill: artifacts, servers and contents are all what the source manifest says. */
  lemma FullDrillSucceedsIff(o: Options, w: World)
    requires !o.restoreOnly && !o.listOnly
    ensures Succeeds(o, w) <==> FullDrillGoesRight(o, w)
  {
    hide D.ManifestValid, D.Canonical, D.CompareDatabaseManifests, IsImageDigest, Digest, SameDatabase, SameServer, GoodSource,
         ParseSourceManifest;
    PlanPasses(o, w);
    hide AllPass;
    if w.readSource.Ok? {
      ParsedSource(w.readSource.value.1);
      if w.image.Ok? { DigestIff(w.image.value); }
      FullParts(w);
      if GoodSource(w.readSource.value.1) && w.inspect.Ok? && D.ManifestValid(w.inspect.value) {
        ContentsMatchIff(o, w);
      }
    }
  }

  /** The record that a successful full drill leaves of its kept server, when a loopback port was asked for. */
  lemma ReopenRecord(o: Options, w: World)
    requires !o.restoreOnly && !o.listOnly && Succeeds(o, w)
    ensures w.final.Ok? && ReopenOf(o, w) ==
      if o.scratch.Requested? then Some(Reopen(o.scratch.port, w.final.value.(inRecovery := false))) else None
  {
    PlanPasses(o, w);
    hide D.CompareDatabaseManifests, D.ManifestValid, D.Canonical, SameDatabase, AllPass, ParseSourceManifest;
  }

  /** Inspection is recorded as done only for an inventory that parses, read from the server that was started. */
  lemma InspectionPasses(o: Options, w: World)
    ensures PhasePasses(o, w, Inspection) <==>
      w.inspect.Ok? && D.ManifestValid(w.inspect.value) && w.initial.Ok? && w.final.Ok? && SameServer(w.initial.value, w.final.value)
  {
    hide D.ManifestValid, D.Canonical, SameDatabase, SameServer;
    if w.initial.Ok? && w.final.Ok? { SameServerIff(w.initial.value, w.final.value); }
  }

  lemma FullParts(w: World)
    ensures w.initial.Ok? && w.afterRestore.Ok? ==>
      (SameDatabase(w.initial.value, w.afterRestore.value) <==> SameServer(w.initial.value, w.afterRestore.value))
    ensures w.initial.Ok? && w.final.Ok? ==>
      (SameDatabase(w.initial.value, w.final.value) <==> SameServer(w.initial.value, w.final.value))
    ensures w.final.Ok? && w.reopened.Ok? ==>
      (SameDatabase(w.final.value.(inRecovery := false), w.reopened.value)
       <==> SameServer(w.final.value.(inRecovery := false), w.reopened.value))
  {
  }

  lemma ContentsMatchIff(o: Options, w: World)
    requires !o.restoreOnly && !o.listOnly && w.readSource.Ok? && w.inspect.Ok?
    requires GoodSource(w.readSource.value.1) && D.ManifestValid(w.inspect.value)
    ensures ContentsMatch(o, w) <==> D.SameContent(w.readSource.value.1.inventory, w.inspect.value)
  {
    hide D.ManifestValid, D.Canonical, D.CompareDatabaseManifests;
    var s := w.readSource.value.1;
    ParsedSource(s);
    assert D.ManifestValid(s.inventory);
    CanonicalCompares(s.inventory, w.inspect.value);
  }

  // ---- Receipts ----------------------------------------------------------------------------------------

  ghost predicate PhasesOnce(r: Receipt) { forall i, j :: 0 <= i < j < |r.phases| ==> r.phases[i].phase != r.phases[j].phase }

  ghost predicate GoodInventories(r: Receipt) {
    (r.source.Some? ==> GoodSource(r.source.value)) && (r.restored.Some? ==> D.ManifestValid(r.restored.value))
  }

  /** A kept server is not the source, and has the version that was restored. */
  ghost predicate GoodReopen(r: Receipt) {
    r.reopen.Some? ==>
      (&& (r.source.Some? ==> r.source.value.source.cluster != r.reopen.value.identity.cluster)
       && r.restored.Some? && r.restored.value.serverVersion == r.reopen.value.identity.serverVersion)
  }

  ghost predicate GoodVerified(r: Receipt) {
    && r.errors == [] && (forall p: Phase :: PhaseOutcome(p, true) in r.phases)
    && r.source.Some? && r.restored.Some? && r.sourceManifest.Some?
    && var s := r.source.value;
       && r.dump == Some(s.dump) && r.quiescence == Some(s.quiescence) && r.image == s.sourceImage && Digest(r.image)
       && D.SameContent(s.inventory, r.restored.value)
       && r.comparison == Some(D.CompareDatabaseManifests(s.inventory, r.restored.value).value)
  }

  ghost predicate GoodSqlOnly(r: Receipt) {
    && r.errors == [] && (forall x :: x in r.phases ==> x.ok)
    && (forall p :: p in {Preflight, Staging, StartPhase, TocPhase, Restoring, Cleanup} ==> PhaseOutcome(p, true) in r.phases)
    && r.source.None? && r.restored.None? && r.sourceManifest.None? && r.quiescence.None? && r.comparison.None? && r.dump.Some?
  }

  ghost predicate GoodReceipt(r: Receipt) {
    && PhasesOnce(r) && GoodInventories(r) && GoodReopen(r)
    && match r.kind
       case Verified => GoodVerified(r)
       case SqlRestoreOnly => GoodSqlOnly(r)
       case Failed => r.errors != [] || exists x :: x in r.phases && !x.ok
  }

  /** The parser accepts exactly the good receipts, and changes nothing but the form of the two inventories. */
  lemma ReceiptParsesIff(r: Receipt)
    ensures ParseRestoreReceipt(r).Some? <==> GoodReceipt(r)
    ensures GoodReceipt(r) ==> ParseRestoreReceipt(r) == Some(InCanonicalForm(r))
  {
    hide D.ManifestValid, D.Canonical, D.CompareDatabaseManifests, VerifiedValid, SqlOnlyValid, ParseSourceManifest, GoodVerified,
         GoodSqlOnly, GoodSource;
    if r.source.Some? { ParsedSource(r.source.value); }
    var c := InCanonicalForm(r);
    if GoodInventories(r) {
      ReopenIff(r);
      VerifiedIff(r);
      SqlOnlyIff(r);
      assert AnyFailed(c) <==> exists x :: x in r.phases && !x.ok by { FailedIff(r); }
    }
  }

  ghost function InCanonicalForm(r: Receipt): Receipt {
    r.(source := if r.source.Some? then Some(r.source.value.(inventory := D.Canonical(r.source.value.inventory))) else None,
       restored := if r.restored.Some? then Some(D.Canonical(r.restored.value)) else None)
  }

  lemma FailedIff(r: Receipt)
    ensures AnyFailed(InCanonicalForm(r)) <==> exists x :: x in r.phases && !x.ok
    ensures AnyFailed(r) <==> AnyFailed(InCanonicalForm(r))
  {
    hide D.Canonical;
    if x :| x in r.phases && !x.ok {
      var i :| 0 <= i < |r.phases| && r.phases[i] == x;
    }
  }

  lemma ReopenIff(r: Receipt)
    ensures ReopenValid(InCanonicalForm(r)) <==> GoodReopen(r)
  {
    hide D.Canonical;
    if r.restored.Some? { D.CanonicalKeepsRest(r.restored.value); }
  }

  lemma VerifiedIff(r: Receipt)
    requires GoodInventories(r)
    ensures VerifiedValid(InCanonicalForm(r)) <==> GoodVerified(r)
  {
    hide D.ManifestValid, D.Canonical, D.CompareDatabaseManifests, IsImageDigest, Digest;
    DigestIff(r.image);
    AllNine(r);
    hide PhaseOk;
    if r.source.Some? && r.restored.Some? {
      CanonicalCompares(r.source.value.inventory, r.restored.value);
    }
  }

  lemma AllNine(r: Receipt)
    ensures (forall p :: p in REQUIRED ==> PhaseOk(InCanonicalForm(r), p)) <==> forall p: Phase :: PhaseOutcome(p, true) in r.phases
  {
    hide D.Canonical;
    var c := InCanonicalForm(r);
    forall p: Phase ensures p in REQUIRED && (PhaseOk(c, p) <==> PhaseOutcome(p, true) in r.phases) {
      match p case Preflight => case Staging => case Bindings => case StartPhase => case TocPhase => case Restoring =>
        case Inspection => case ComparisonPhase => case Cleanup =>
    }
    hide PhaseOk;
  }

  lemma SqlOnlyIff(r: Receipt)
    ensures SqlOnlyValid(InCanonicalForm(r)) <==> GoodSqlOnly(r)
  {
    hide D.Canonical;
    FailedIff(r);
    assert SQL_ONLY == {Preflight, Staging, StartPhase, TocPhase, Restoring, Cleanup};
  }
}
