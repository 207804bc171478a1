/**
 * Backfill and cutover gate, said outright: which rows get a genesis and an index entry, which events a
 * fold reads, what a rebuild leaves of every row, and when the gate says GO.
 */
module GateMeaning {
  import opened Wrappers
  import opened GenesisBackfill
  import opened CutoverGate

  // ---- What a backfill writes -------------------------------------------------------------------

  /**
   * The row is live, no event of the log created it, and, for the kinds whose pre-scan looks there,
   * no index entry names it.
   */
  ghost predicate Unaccounted(s: Store, key: Key) {
    && key in s.rows
    && (forall e :: e in s.log ==> if e.Genesis? then e.of != key else key !in e.creates)
    && (key in s.index ==> key.kind == KnowledgeEdge || key.kind == QuestionBlock || key.kind == ItemCalibration)
  }

  ghost predicate Seeded(s: Store, parses: Barrier, keys: set<Key>, key: Key) {
    key in keys && Unaccounted(s, key) && parses(key, s.rows[key])
  }

  lemma UnaccountedIff(s: Store, key: Key)
    ensures Unaccounted(s, key) <==> key in s.rows && !Anchored(s, key)
  {
    forall e ensures Creates(e, key) <==> (if e.Genesis? then e.of == key else key in e.creates) { }
  }

  lemma SeededIff(s: Store, parses: Barrier, keys: set<Key>, key: Key)
    ensures Seeded(s, parses, keys, key) <==> key in Fresh(s, parses, keys)
  {
    UnaccountedIff(s, key);
    hide Anchored, Unaccounted;
  }

  /**
   * After the rows of `keys` have been handled every seeded one has one genesis more, with its row, no
   * other event has been added, and the seeded ones are indexed but for question blocks and calibrations.
   */
  lemma BackfillMeans(s: Store, t: Store, parses: Barrier, keys: set<Key>)
    requires Handles(s, t, parses, keys)
    ensures t.rows == s.rows && s.log <= t.log
    ensures forall key, row :: multiset(t.log)[Genesis(key, row)] == multiset(s.log)[Genesis(key, row)] +
              if Seeded(s, parses, keys, key) && row == s.rows[key] then 1 else 0
    ensures forall e: Event :: e.Fact? ==> multiset(t.log)[e] == multiset(s.log)[e]
    ensures forall key :: key in t.index <==>
              (key in s.index || (Seeded(s, parses, keys, key) && key.kind != QuestionBlock && key.kind != ItemCalibration))
  {
    forall key ensures Seeded(s, parses, keys, key) <==> key in Fresh(s, parses, keys) { SeededIff(s, parses, keys, key); }
    hide Seeded, Fresh;
    var seeds := SeedEvents(s, Fresh(s, parses, keys));
    forall e ensures multiset(t.log)[e] == multiset(s.log)[e] + if e in seeds then 1 else 0 {
      assert multiset(t.log)[e] == (multiset(s.log) + multiset(seeds))[e];
    }
  }

  /** A row stops the backfill, or is reported, exactly when it is unaccounted for and does not parse, or is hit. */
  lemma StopsIff(s: Store, parses: Barrier, faults: set<Key>, key: Key)
    ensures Fails(s, parses, key) <==> Unaccounted(s, key) && !parses(key, s.rows[key])
    ensures Hit(s, faults, key) <==> Unaccounted(s, key) && key in faults
  {
    UnaccountedIff(s, key);
    hide Anchored, Unaccounted;
  }

  // ---- What a fold reads -------------------------------------------------------------------------

  ghost predicate ReadBy(e: Event, key: Key) { if e.Genesis? then e.of == key else key in e.read }

  /** `events` are the events of the log that concern the row, in the order of the log. */
  ghost predicate Concerning(log: seq<Event>, key: Key, events: seq<Event>, at: seq<nat>) {
    && |at| == |events|
    && (forall i :: 0 <= i < |at| ==> at[i] < |log| && events[i] == log[at[i]] && ReadBy(log[at[i]], key))
    && (forall i, j :: 0 <= i < j < |at| ==> at[i] < at[j])
    && (forall n :: 0 <= n < |log| && ReadBy(log[n], key) ==> n in at)
  }

  lemma {:induction false} FoldReads(log: seq<Event>, key: Key) returns (at: seq<nat>)
    ensures Concerning(log, key, FedBy(log, key), at)
    decreases |log|
  {
    if log == [] {
      at := [];
    } else {
      var init, last := log[..|log| - 1], log[|log| - 1];
      assert log == init + [last];
      at := FoldReads(init, key);
      FedByAppend(init, [last], key);
      assert FedBy([last], key) == if Feeds(last, key) then [last] else [] by { assert [last][1..] == []; }
      assert Feeds(last, key) <==> ReadBy(last, key);
      assert forall n :: 0 <= n < |init| ==> log[n] == init[n];
      if Feeds(last, key) {
        var more := at + [|init|];
        assert forall n :: n in more <==> n in at || n == |init|;
        at := more;
      }
    }
  }

  // ---- What a rebuild leaves ------------------------------------------------------------------------

  /** A rebuild looks at every live row, every row that an event names and every indexed row. */
  ghost predicate LookedAt(s: Store, kinds: seq<Kind>, key: Key) {
    && key.kind in kinds
    && (|| key in s.rows
        || (exists e :: e in s.log && if e.Genesis? then e.of == key else key in e.named)
        || (key in s.index && key.kind != QuestionBlock && key.kind != ItemCalibration))
  }

  lemma LookedAtIff(s: Store, kinds: seq<Kind>, key: Key)
    ensures LookedAt(s, kinds, key) <==> key in UniverseOf(s, kinds)
  {
    forall e ensures key in Named(e) <==> (if e.Genesis? then e.of == key else key in e.named) { }
    hide Named;
    assert key in UniverseOf(s, kinds) <==> key.kind in kinds && key in Universe(s, key.kind);
  }

  /** Rows not looked at stay; the others become their folds, and go where the fold is nothing, with one exception. */
  ghost predicate LeftBehind(p: Projection, s: Store, kinds: seq<Kind>, rows: map<Key, Row>, key: Key) {
    var fold := p.reduce(key, FedBy(s.log, key));
    if !LookedAt(s, kinds, key) then (key in rows <==> key in s.rows) && (key in rows ==> rows[key] == s.rows[key])
    else if fold.Some? then key in rows && rows[key] == fold.value
    else if Unaccounted(s, key) && key.kind != Knowledge && key.kind != KnowledgeEdge
    then key in rows && rows[key] == s.rows[key]
    else key !in rows
  }

  lemma RebuildMeans(p: Projection, s: Store, kinds: seq<Kind>, rows: map<Key, Row>)
    ensures Rebuilt(p, s, UniverseOf(s, kinds), rows) <==> forall key :: LeftBehind(p, s, kinds, rows, key)
  {
    forall key ensures RowRebuilt(p, s, UniverseOf(s, kinds), rows, key) <==> LeftBehind(p, s, kinds, rows, key) {
      LookedAtIff(s, kinds, key);
      UnaccountedIff(s, key);
      hide UniverseOf, LookedAt, Unaccounted, Anchored, FedBy;
    }
    hide RowRebuilt, LeftBehind;
  }

  // ---- When the gate says GO ------------------------------------------------------------------------

  /** The row folds without a throw to a row, its own unless it is allowlisted; nothing else that is looked at folds to a row. */
  ghost predicate Agrees(p: Projection, s: Store, kinds: seq<Kind>, allow: set<Id>, key: Key) {
    var fold := p.reduce(key, FedBy(s.log, key));
    if key in s.rows && key.kind in kinds
    then p.throws(key, s) == Quiet && fold.Some? && (key.id in allow || fold == Some(s.rows[key]))
    else LookedAt(s, kinds, key) ==> fold.None?
  }

  lemma FaithfulMeans(p: Projection, s: Store, kinds: seq<Kind>, allow: set<Id>)
    ensures Faithful(p, s, kinds, allow) <==> forall key :: Agrees(p, s, kinds, allow, key)
  {
    forall key
      ensures (key in UniverseOf(s, kinds) ==> FaithfulRow(p, s, allow, key)) <==> Agrees(p, s, kinds, allow, key)
    {
      LookedAtIff(s, kinds, key);
      assert key in s.rows && key.kind in kinds ==> LookedAt(s, kinds, key);
      assert LookedAt(s, kinds, key) ==> key.kind in kinds;
      hide UniverseOf, LookedAt, FedBy;
    }
    hide Agrees, FaithfulRow, UniverseOf;
  }
}
