/**
 * Database manifests: the inventory checks, the canonical form, and the comparison
 * of a source inventory with a restored one.
 */
module DatabaseParity {
  import opened Wrappers
  import opened Ordering
  import RelationKey
  import T = TypeChain

  type Name = T.Name

  datatype Column = Column(
    name: string, columnType: Name, chain: seq<T.Link>, modifier: int, dimensions: nat, collation: Option<Name>)

  datatype Table = Table(
    id: Name, kind: char, persistence: char, partition: bool, bound: Option<string>,
    parents: seq<Name>, columns: seq<Column>, rows: string, sha256: string)

  datatype SequenceInfo = SequenceInfo(
    id: Name, numberType: Name, start: string, increment: string, min: string, max: string, cache: string,
    cycle: bool, owner: Option<(Name, string)>, lastValue: string, isCalled: bool)

  datatype Extension = Extension(name: string, version: string)

  datatype Manifest = Manifest(
    algorithm: string, encoding: string, serverVersion: string, extensions: seq<Extension>,
    schemas: seq<string>, tables: seq<Table>, sequences: seq<SequenceInfo>)

  datatype Parsed<X> = Accepted(value: X) | Rejected

  function KeyOf(n: Name): string { RelationKey.Key(n.schema, n.name) }

  // ---- Canonical form and inventory checks -------------------------------------------------------

  function IsArray(chain: seq<T.Link>): bool { exists i :: 0 <= i < |chain| && chain[i].kind == T.Array }

  predicate ColumnValid(c: Column) { T.ChainValid(c.chain) && KeyOf(c.columnType) == KeyOf(c.chain[0].id) }

  /** Declared dimensions say nothing about a stored array value. */
  function CanonicalColumn(c: Column): Column { c.(dimensions := if IsArray(c.chain) then 0 else c.dimensions) }

  function CanonicalColumns(cs: seq<Column>): seq<Column> {
    if cs == [] then [] else [CanonicalColumn(cs[0])] + CanonicalColumns(cs[1..])
  }

  function CanonicalTable(t: Table): Table { t.(columns := CanonicalColumns(t.columns)) }

  function CanonicalTables(ts: seq<Table>): seq<Table> {
    if ts == [] then [] else [CanonicalTable(ts[0])] + CanonicalTables(ts[1..])
  }

  function Canonical(m: Manifest): Manifest { m.(tables := CanonicalTables(m.tables)) }

  /** No two entries share a key. */
  predicate Unique<X>(s: seq<X>, key: X -> string) {
    forall i, j :: 0 <= i < j < |s| ==> key(s[i]) != key(s[j])
  }

  const TABLE_KEY: Table -> string := (t: Table) => KeyOf(t.id)
  const SEQUENCE_KEY: SequenceInfo -> string := (q: SequenceInfo) => KeyOf(q.id)
  const NAME_KEY: Name -> string := (n: Name) => KeyOf(n)
  const EXTENSION_KEY: Extension -> string := (e: Extension) => e.name
  const COLUMN_KEY: Column -> string := (c: Column) => c.name
  const SELF_KEY: string -> string := (s: string) => s

  predicate TableValid(m: Manifest, t: Table) {
    && t.id.schema in m.schemas
    && Unique(t.columns, COLUMN_KEY) && Unique(t.parents, NAME_KEY)
    && t.kind != 'f' && t.persistence != 't'
    && (t.kind == 'p' ==> t.rows == "0")
    && (forall p :: p in t.parents ==> exists u :: u in m.tables && KeyOf(u.id) == KeyOf(p))
    && (forall c :: c in t.columns ==> ColumnValid(c))
  }

  predicate ManifestValid(m: Manifest) {
    && Unique(m.schemas, SELF_KEY) && Unique(m.tables, TABLE_KEY)
    && Unique(m.sequences, SEQUENCE_KEY) && Unique(m.extensions, EXTENSION_KEY)
    && (forall q :: q in m.sequences ==> q.id.schema in m.schemas)
    && (forall t :: t in m.tables ==> TableValid(m, t))
  }

  function ParseDatabaseManifest(m: Manifest): Parsed<Manifest> {
    if ManifestValid(m) then Accepted(Canonical(m)) else Rejected
  }

  // ---- The comparison -------------------------------------------------------------------------------

  datatype Kind = Equal | Different

  datatype Comparison = Comparison(
    kind: Kind,
    missingSchemas: seq<string>, extraSchemas: seq<string>,
    tables: Diff, sequences: Diff,
    environmentMismatches: seq<string>)

  datatype Diff = Diff(missing: seq<Name>, extra: seq<Name>, mismatched: seq<Name>)

  /** A relation with the value that is compared for it. */
  datatype Entry<X> = Entry(id: Name, value: X)

  predicate HasKey<X>(entries: seq<Entry<X>>, n: Name) {
    exists i :: 0 <= i < |entries| && KeyOf(entries[i].id) == KeyOf(n)
  }

  function Lookup<X>(entries: seq<Entry<X>>, n: Name): Option<X> {
    if entries == [] then None
    else if KeyOf(entries[0].id) == KeyOf(n) then Some(entries[0].value)
    else Lookup(entries[1..], n)
  }

  /** The names of `left` that `right` does not have. */
  function Absent<X>(left: seq<Entry<X>>, right: seq<Entry<X>>): seq<Name> {
    if left == [] then []
    else (if HasKey(right, left[0].id) then [] else [left[0].id]) + Absent(left[1..], right)
  }

  /** The names both have, with different values. */
  function Differing<X(==)>(left: seq<Entry<X>>, right: seq<Entry<X>>): seq<Name> {
    if left == [] then []
    else
      var e := left[0];
      (if HasKey(right, e.id) && Lookup(right, e.id) != Some(e.value) then [e.id] else []) + Differing(left[1..], right)
  }

  function Compare<X(==)>(left: seq<Entry<X>>, right: seq<Entry<X>>): Diff {
    Diff(Absent(left, right), Absent(right, left), Differing(left, right))
  }

  function Without(left: seq<string>, right: seq<string>): seq<string> {
    if left == [] then [] else (if left[0] in right then [] else [left[0]]) + Without(left[1..], right)
  }

  /** Tables are compared with their parents in key order. */
  function TableEntries(ts: seq<Table>): seq<Entry<Table>> {
    seq(|ts|, i requires 0 <= i < |ts| => Entry(ts[i].id, ts[i].(parents := SortBy(ts[i].parents, NAME_KEY))))
  }

  function SequenceEntries(qs: seq<SequenceInfo>): seq<Entry<SequenceInfo>> {
    seq(|qs|, i requires 0 <= i < |qs| => Entry(qs[i].id, qs[i]))
  }

  function Environment(a: Manifest, b: Manifest): seq<string> {
    (if a.algorithm != b.algorithm then ["algorithm"] else []) +
    (if a.encoding != b.encoding then ["encoding"] else []) +
    (if a.serverVersion != b.serverVersion then ["server_version"] else []) +
    (if SortBy(a.extensions, EXTENSION_KEY) != SortBy(b.extensions, EXTENSION_KEY) then ["extensions"] else [])
  }

  predicate Empty(d: Diff) { d.missing == [] && d.extra == [] && d.mismatched == [] }

  function CompareParsed(a: Manifest, b: Manifest): Comparison {
    var missing, extra := Without(a.schemas, b.schemas), Without(b.schemas, a.schemas);
    var tables := Compare(TableEntries(a.tables), TableEntries(b.tables));
    var sequences := Compare(SequenceEntries(a.sequences), SequenceEntries(b.sequences));
    var environment := Environment(a, b);
    var clean := missing == [] && extra == [] && Empty(tables) && Empty(sequences) && environment == [];
    Comparison(if clean then Equal else Different, missing, extra, tables, sequences, environment)
  }

  function CompareDatabaseManifests(source: Manifest, restored: Manifest): Parsed<Comparison> {
    match (ParseDatabaseManifest(source), ParseDatabaseManifest(restored))
    case (Accepted(a), Accepted(b)) => Accepted(CompareParsed(a, b))
    case _ => Rejected
  }

  // ---- What a manifest says, without its list orders ------------------------------------------------

  /** A table with its parents as a set. */
  datatype TableFact = TableFact(table: Table, parents: set<Name>)

  datatype Facts = Facts(
    algorithm: string, encoding: string, serverVersion: string, extensions: set<Extension>,
    schemas: set<string>, tables: set<TableFact>, sequences: set<SequenceInfo>)

  ghost function SetOf<X>(s: seq<X>): set<X> { set x | x in s }

  ghost function FactOf(t: Table): TableFact {
    TableFact(CanonicalTable(t).(parents := []), SetOf(t.parents))
  }

  ghost function FactSet(ts: seq<Table>): set<TableFact> { set t | t in ts :: FactOf(t) }

  ghost function FactsOf(m: Manifest): Facts {
    Facts(m.algorithm, m.encoding, m.serverVersion, SetOf(m.extensions), SetOf(m.schemas),
          FactSet(m.tables), SetOf(m.sequences))
  }

  /** Two columns agree in every field, save that an array column may declare any number of dimensions. */
  ghost predicate SameColumn(c: Column, d: Column) {
    && c.name == d.name && c.columnType == d.columnType && c.chain == d.chain
    && c.modifier == d.modifier && c.collation == d.collation
    && (c.dimensions == d.dimensions || exists i :: 0 <= i < |c.chain| && c.chain[i].kind == T.Array)
  }

  /** Two tables agree in every field, in their parents as sets and in their columns one by one. */
  ghost predicate SameTable(t: Table, u: Table) {
    && t.id == u.id && t.kind == u.kind && t.persistence == u.persistence
    && t.partition == u.partition && t.bound == u.bound && t.rows == u.rows && t.sha256 == u.sha256
    && (forall p :: p in t.parents <==> p in u.parents)
    && |t.columns| == |u.columns|
    && (forall i :: 0 <= i < |t.columns| ==> SameColumn(t.columns[i], u.columns[i]))
  }

  lemma SameColumnIff(c: Column, d: Column)
    ensures CanonicalColumn(c) == CanonicalColumn(d) <==> SameColumn(c, d)
  {
    if SameColumn(c, d) {
      assert CanonicalColumn(c) == CanonicalColumn(d).(dimensions := CanonicalColumn(c).dimensions);
    }
    if CanonicalColumn(c) == CanonicalColumn(d) {
      assert CanonicalColumn(c).chain == CanonicalColumn(d).chain;
    }
  }

  /** Facts are equal exactly when the tables agree field by field. */
  lemma SameFactIff(t: Table, u: Table)
    ensures FactOf(t) == FactOf(u) <==> SameTable(t, u)
  {
    CanonicalColumnsAt(t.columns);
    CanonicalColumnsAt(u.columns);
    if |t.columns| == |u.columns| {
      forall i | 0 <= i < |t.columns|
        ensures CanonicalColumns(t.columns)[i] == CanonicalColumns(u.columns)[i] <==> SameColumn(t.columns[i], u.columns[i])
      {
        SameColumnIff(t.columns[i], u.columns[i]);
      }
    }
    hide CanonicalColumns, CanonicalColumn, SameColumn;
    var a, b := CanonicalTable(t).(parents := []), CanonicalTable(u).(parents := []);
    if FactOf(t) == FactOf(u) {
      assert a == b;
      assert forall p :: p in t.parents <==> p in FactOf(t).parents;
      assert forall p :: p in u.parents <==> p in FactOf(u).parents;
    }
    if SameTable(t, u) {
      assert a.columns == b.columns && SetOf(t.parents) == SetOf(u.parents);
    }
  }

  lemma NameKeyInjective(a: Name, b: Name)
    requires KeyOf(a) == KeyOf(b)
    ensures a == b
  {
    RelationKey.KeyInjective(a.schema, a.name, b.schema, b.name);
  }

  // Canonical form

  lemma {:induction false} CanonicalColumnsAt(cs: seq<Column>)
    ensures |CanonicalColumns(cs)| == |cs|
    ensures forall i :: 0 <= i < |cs| ==> CanonicalColumns(cs)[i] == CanonicalColumn(cs[i])
    decreases |cs|
  {
    if cs != [] { CanonicalColumnsAt(cs[1..]); }
  }

  lemma {:induction false} CanonicalTablesAt(ts: seq<Table>)
    ensures |CanonicalTables(ts)| == |ts|
    ensures forall i :: 0 <= i < |ts| ==> CanonicalTables(ts)[i] == CanonicalTable(ts[i])
    decreases |ts|
  {
    if ts != [] { CanonicalTablesAt(ts[1..]); }
  }

  lemma CanonicalTableIdempotent(t: Table)
    ensures CanonicalTable(CanonicalTable(t)) == CanonicalTable(t)
  {
    CanonicalColumnsAt(t.columns);
    CanonicalColumnsAt(CanonicalColumns(t.columns));
    assert CanonicalColumns(CanonicalColumns(t.columns)) == CanonicalColumns(t.columns);
  }

  lemma CanonicalTableValid(m: Manifest, n: Manifest, t: Table)
    requires TableValid(m, t) && n.schemas == m.schemas
    requires forall u :: u in m.tables ==> exists w :: w in n.tables && w.id == u.id
    ensures TableValid(n, CanonicalTable(t))
  {
    hide T.ChainValid, KeyOf;
    CanonicalColumnsAt(t.columns);
    var u := CanonicalTable(t);
    forall c | c in u.columns ensures ColumnValid(c) {
      var i :| 0 <= i < |u.columns| && u.columns[i] == c;
      assert t.columns[i] in t.columns;
    }
    assert Unique(u.columns, COLUMN_KEY);
    forall p | p in t.parents ensures exists w :: w in n.tables && KeyOf(w.id) == KeyOf(p) {
      var x :| x in m.tables && KeyOf(x.id) == KeyOf(p);
      var w :| w in n.tables && w.id == x.id;
    }
  }

  /** Parsing is idempotent: its output parses, to itself. */
  lemma ParseIdempotent(m: Manifest)
    requires ManifestValid(m)
    ensures ParseDatabaseManifest(Canonical(m)) == Accepted(Canonical(m))
  {
    hide T.ChainValid, KeyOf, TableValid, CanonicalTable, CanonicalTables;
    var n := Canonical(m);
    CanonicalTablesValid(m, n);
    CanonicalTablesIdempotent(m.tables);
  }

  lemma CanonicalTablesIdempotent(ts: seq<Table>)
    ensures CanonicalTables(CanonicalTables(ts)) == CanonicalTables(ts)
  {
    hide CanonicalTable, CanonicalTables;
    CanonicalTablesAt(ts);
    CanonicalTablesAt(CanonicalTables(ts));
    forall i | 0 <= i < |ts| ensures CanonicalTables(CanonicalTables(ts))[i] == CanonicalTables(ts)[i] {
      CanonicalTableIdempotent(ts[i]);
    }
  }

  lemma CanonicalTablesValid(m: Manifest, n: Manifest)
    requires ManifestValid(m) && n == Canonical(m)
    ensures Unique(n.tables, TABLE_KEY) && forall t :: t in n.tables ==> TableValid(n, t)
  {
    hide T.ChainValid, KeyOf, TableValid;
    CanonicalTablesAt(m.tables);
    forall u | u in m.tables ensures exists w :: w in n.tables && w.id == u.id {
      var i :| 0 <= i < |m.tables| && m.tables[i] == u;
      assert n.tables[i] in n.tables;
    }
    forall t | t in n.tables ensures TableValid(n, t) {
      var i :| 0 <= i < |n.tables| && n.tables[i] == t;
      CanonicalTableValid(m, n, m.tables[i]);
    }
  }

  // Lists without order

  lemma UniqueOccursOnce<X>(s: seq<X>, key: X -> string, x: X)
    requires Unique(s, key) && x in s
    ensures multiset(s)[x] == 1
  {
    var i :| 0 <= i < |s| && s[i] == x;
    assert s == s[..i] + [s[i]] + s[i + 1..];
    assert x !in s[..i] && x !in s[i + 1..];
    assert multiset(s) == multiset(s[..i]) + multiset{x} + multiset(s[i + 1..]);
  }

  /** Lists without repeated keys hold the same multiset exactly when they hold the same set. */
  lemma UniqueMultisets<X>(a: seq<X>, b: seq<X>, key: X -> string)
    requires Unique(a, key) && Unique(b, key)
    ensures multiset(a) == multiset(b) <==> SetOf(a) == SetOf(b)
  {
    if multiset(a) == multiset(b) {
      forall x ensures x in a <==> x in b { assert x in multiset(a) <==> x in multiset(b); }
    }
    if SetOf(a) == SetOf(b) {
      forall x ensures multiset(a)[x] == multiset(b)[x] {
        assert x in SetOf(a) <==> x in SetOf(b);
        if x in a {
          UniqueOccursOnce(a, key, x);
          UniqueOccursOnce(b, key, x);
        }
      }
    }
  }

  lemma SortedUniqueEqualIff<X>(a: seq<X>, b: seq<X>, key: X -> string)
    requires Unique(a, key) && Unique(b, key)
    ensures SortBy(a, key) == SortBy(b, key) <==> SetOf(a) == SetOf(b)
  {
    UniqueMultisets(a, b, key);
    SortByEqualIff(a, b, key);
  }

  lemma {:induction false} WithoutEmptyIff(a: seq<string>, b: seq<string>)
    ensures Without(a, b) == [] <==> SetOf(a) <= SetOf(b)
    decreases |a|
  {
    if a != [] {
      WithoutEmptyIff(a[1..], b);
      assert SetOf(a) == {a[0]} + SetOf(a[1..]);
    }
  }

  // Entries

  predicate UniqueIds<X>(entries: seq<Entry<X>>) {
    forall i, j :: 0 <= i < j < |entries| ==> KeyOf(entries[i].id) != KeyOf(entries[j].id)
  }

  lemma {:induction false} AbsentEmptyIff<X>(left: seq<Entry<X>>, right: seq<Entry<X>>)
    ensures Absent(left, right) == [] <==> forall e :: e in left ==> HasKey(right, e.id)
    decreases |left|
  {
    if left != [] {
      hide HasKey;
      AbsentEmptyIff(left[1..], right);
      assert left == [left[0]] + left[1..];
      assert forall e :: e in left <==> e == left[0] || e in left[1..];
    }
  }

  lemma {:induction false} DifferingEmptyIff<X>(left: seq<Entry<X>>, right: seq<Entry<X>>)
    ensures Differing(left, right) == [] <==>
      forall e :: e in left && HasKey(right, e.id) ==> Lookup(right, e.id) == Some(e.value)
    decreases |left|
  {
    if left != [] {
      DifferingEmptyIff(left[1..], right);
      assert left == [left[0]] + left[1..];
    }
  }

  lemma {:induction false} LookupFinds<X>(entries: seq<Entry<X>>, e: Entry<X>, n: Name)
    requires UniqueIds(entries) && e in entries && KeyOf(e.id) == KeyOf(n)
    ensures Lookup(entries, n) == Some(e.value)
    decreases |entries|
  {
    hide KeyOf;
    assert entries == [entries[0]] + entries[1..];
    if KeyOf(entries[0].id) == KeyOf(n) {
      var i :| 0 <= i < |entries| && entries[i] == e;
    } else {
      LookupFinds(entries[1..], e, n);
    }
  }

  lemma EqualKeysEqualEntries<X>(left: seq<Entry<X>>, right: seq<Entry<X>>, e: Entry<X>)
    requires UniqueIds(left) && UniqueIds(right) && e in left
    requires HasKey(right, e.id) && Lookup(right, e.id) == Some(e.value)
    ensures e in right
  {
    hide KeyOf;
    var i :| 0 <= i < |right| && KeyOf(right[i].id) == KeyOf(e.id);
    LookupFinds(right, right[i], e.id);
    NameKeyInjective(right[i].id, e.id);
    assert right[i] == e;
  }

  /** Nothing missing, extra or mismatched: the two lists have the same entries. */
  lemma CompareEmptyIff<X>(left: seq<Entry<X>>, right: seq<Entry<X>>)
    requires UniqueIds(left) && UniqueIds(right)
    ensures Empty(Compare(left, right)) <==> SetOf(left) == SetOf(right)
  {
    hide KeyOf, Lookup;
    AbsentEmptyIff(left, right);
    AbsentEmptyIff(right, left);
    DifferingEmptyIff(left, right);
    if Empty(Compare(left, right)) {
      forall e | e in left ensures e in right { EqualKeysEqualEntries(left, right, e); }
      forall e | e in right ensures e in left {
        var i :| 0 <= i < |left| && KeyOf(left[i].id) == KeyOf(e.id);
        assert left[i] in left && HasKey(right, left[i].id) && Lookup(right, left[i].id) == Some(left[i].value);
        LookupFinds(right, e, left[i].id);
        NameKeyInjective(left[i].id, e.id);
        assert left[i] == e;
      }
    }
    if SetOf(left) == SetOf(right) {
      forall e | e in left ensures HasKey(right, e.id) && Lookup(right, e.id) == Some(e.value) {
        assert e in SetOf(right);
        LookupFinds(right, e, e.id);
      }
      forall e | e in right ensures HasKey(left, e.id) { assert e in SetOf(left); }
    }
  }

  // ---- Equality of manifests is equality of facts ---------------------------------------------------

  ghost function EntryOf(t: Table): Entry<Table> { Entry(t.id, t.(parents := SortBy(t.parents, NAME_KEY))) }

  ghost function EntrySet(ts: seq<Table>): set<Entry<Table>> { set t | t in ts :: EntryOf(t) }

  /** Two canonical tables compare equal exactly when they state the same fact. */
  lemma TableEntriesEqualIff(t: Table, u: Table)
    requires Unique(t.parents, NAME_KEY) && Unique(u.parents, NAME_KEY)
    requires CanonicalTable(t) == t && CanonicalTable(u) == u
    ensures EntryOf(t) == EntryOf(u) <==> FactOf(t) == FactOf(u)
  {
    hide CanonicalTable, KeyOf, SortBy, Unique;
    SortedUniqueEqualIff(t.parents, u.parents, NAME_KEY);
    if FactOf(t) == FactOf(u) {
      assert t.(parents := []) == u.(parents := []);
      assert t == t.(parents := []).(parents := t.parents);
    }
    if EntryOf(t) == EntryOf(u) {
      assert t.(parents := []) == EntryOf(t).value.(parents := []);
    }
  }

  ghost predicate Standard(ts: seq<Table>) {
    forall t :: t in ts ==> Unique(t.parents, NAME_KEY) && CanonicalTable(t) == t
  }

  lemma TableSetsEqualIff(a: seq<Table>, b: seq<Table>)
    requires Standard(a) && Standard(b)
    ensures SetOf(TableEntries(a)) == SetOf(TableEntries(b)) <==>
      FactSet(a) == FactSet(b)
  {
    hide FactOf, CanonicalTable, Unique, KeyOf, SortBy;
    EntriesAre(a);
    EntriesAre(b);
    forall t, u | (t in a || t in b) && (u in a || u in b) ensures EntryOf(t) == EntryOf(u) <==> FactOf(t) == FactOf(u) {
      TableEntriesEqualIff(t, u);
    }
    var ea, eb := EntrySet(a), EntrySet(b);
    var fa, fb := FactSet(a), FactSet(b);
    if ea == eb {
      ImageTransfer(a, b);
      ImageTransfer(b, a);
    }
    if fa == fb {
      FactTransfer(a, b);
      FactTransfer(b, a);
    }
  }

  lemma EntriesAre(a: seq<Table>)
    ensures SetOf(TableEntries(a)) == EntrySet(a)
  {
    hide SortBy;
    var es := TableEntries(a);
    forall e ensures e in es <==> e in EntrySet(a) {
      if e in es {
        var i :| 0 <= i < |es| && es[i] == e;
        assert a[i] in a && EntryOf(a[i]) == e;
      }
      if e in EntrySet(a) {
        var t :| t in a && EntryOf(t) == e;
        var i :| 0 <= i < |a| && a[i] == t;
        assert es[i] == e;
      }
    }
  }

  lemma ImageTransfer(a: seq<Table>, b: seq<Table>)
    requires forall t, u :: t in a && u in b && EntryOf(t) == EntryOf(u) ==> FactOf(t) == FactOf(u)
    requires EntrySet(a) <= EntrySet(b)
    ensures FactSet(a) <= FactSet(b)
  {
    hide EntryOf, FactOf;
    forall t | t in a ensures FactOf(t) in FactSet(b) {
      assert EntryOf(t) in EntrySet(b);
      var u :| u in b && EntryOf(u) == EntryOf(t);
    }
  }

  lemma FactTransfer(a: seq<Table>, b: seq<Table>)
    requires forall t, u :: t in a && u in b && FactOf(t) == FactOf(u) ==> EntryOf(t) == EntryOf(u)
    requires FactSet(a) <= FactSet(b)
    ensures EntrySet(a) <= EntrySet(b)
  {
    hide EntryOf, FactOf;
    forall t | t in a ensures EntryOf(t) in EntrySet(b) {
      assert FactOf(t) in FactSet(b);
      var u :| u in b && FactOf(u) == FactOf(t);
    }
  }

  lemma CanonicalIsStandard(m: Manifest)
    requires ManifestValid(m)
    ensures Standard(Canonical(m).tables)
    ensures UniqueIds(TableEntries(Canonical(m).tables)) && UniqueIds(SequenceEntries(m.sequences))
  {
    hide KeyOf, CanonicalTable, SortBy, T.ChainValid;
    var ts := Canonical(m).tables;
    CanonicalTablesValid(m, Canonical(m));
    CanonicalTablesAt(m.tables);
    forall t | t in ts ensures Unique(t.parents, NAME_KEY) && CanonicalTable(t) == t {
      assert TableValid(Canonical(m), t);
      var i :| 0 <= i < |ts| && ts[i] == t;
      CanonicalTableIdempotent(m.tables[i]);
    }
    assert forall i, j :: 0 <= i < j < |ts| ==> TABLE_KEY(ts[i]) != TABLE_KEY(ts[j]);
    assert forall i, j :: 0 <= i < j < |m.sequences| ==> SEQUENCE_KEY(m.sequences[i]) != SEQUENCE_KEY(m.sequences[j]);
  }

  lemma FactsOfCanonical(m: Manifest)
    ensures FactsOf(Canonical(m)) == FactsOf(m)
  {
    hide CanonicalTable;
    var ts := Canonical(m).tables;
    CanonicalTablesAt(m.tables);
    forall i | 0 <= i < |ts| ensures FactOf(ts[i]) == FactOf(m.tables[i]) {
      CanonicalTableIdempotent(m.tables[i]);
      CanonicalKeepsParents(m.tables[i]);
    }
    forall f ensures f in FactSet(ts) <==> f in FactSet(m.tables) {
      if f in FactSet(ts) {
        var t :| t in ts && FactOf(t) == f;
        var i :| 0 <= i < |ts| && ts[i] == t;
        assert m.tables[i] in m.tables;
      }
      if f in FactSet(m.tables) {
        var t :| t in m.tables && FactOf(t) == f;
        var i :| 0 <= i < |m.tables| && m.tables[i] == t;
        assert ts[i] in ts;
      }
    }
  }

  lemma CanonicalKeepsParents(t: Table)
    ensures CanonicalTable(t).parents == t.parents
  {
  }

  lemma EnvironmentEmptyIff(a: Manifest, b: Manifest)
    requires Unique(a.extensions, EXTENSION_KEY) && Unique(b.extensions, EXTENSION_KEY)
    ensures Environment(a, b) == [] <==>
      a.algorithm == b.algorithm && a.encoding == b.encoding && a.serverVersion == b.serverVersion
      && SetOf(a.extensions) == SetOf(b.extensions)
  {
    hide SortBy;
    SortedUniqueEqualIff(a.extensions, b.extensions, EXTENSION_KEY);
  }

  lemma SequenceSetsEqualIff(a: seq<SequenceInfo>, b: seq<SequenceInfo>)
    ensures SetOf(SequenceEntries(a)) == SetOf(SequenceEntries(b)) <==> SetOf(a) == SetOf(b)
  {
    SequenceEntriesAre(a);
    SequenceEntriesAre(b);
    if SetOf(SequenceEntries(a)) == SetOf(SequenceEntries(b)) {
      forall q ensures q in a <==> q in b {
        assert Entry(q.id, q) in SetOf(SequenceEntries(a)) <==> Entry(q.id, q) in SetOf(SequenceEntries(b));
      }
    }
    if SetOf(a) == SetOf(b) {
      forall e ensures e in SequenceEntries(a) <==> e in SequenceEntries(b) {
        assert e.value in SetOf(a) <==> e.value in SetOf(b);
      }
    }
  }

  lemma SequenceEntriesAre(a: seq<SequenceInfo>)
    ensures forall e :: e in SequenceEntries(a) <==> e.id == e.value.id && e.value in a
  {
    var es := SequenceEntries(a);
    forall e ensures e in es <==> e.id == e.value.id && e.value in a {
      if e.id == e.value.id && e.value in a {
        var i :| 0 <= i < |a| && a[i] == e.value;
        assert es[i] == e;
      }
    }
  }

  /** Two manifests that parse compare as equal exactly when they state the same facts. */
  lemma EqualIffSameFacts(source: Manifest, restored: Manifest)
    requires ManifestValid(source) && ManifestValid(restored)
    ensures CompareDatabaseManifests(source, restored).Accepted?
    ensures CompareDatabaseManifests(source, restored).value.kind == Equal <==> FactsOf(source) == FactsOf(restored)
  {
    hide Canonical, Compare, Without, TableEntries, SequenceEntries, Environment, FactOf, Standard, TableValid, SetOf;
    var a, b := Canonical(source), Canonical(restored);
    CanonicalKeepsRest(source);
    CanonicalKeepsRest(restored);
    CanonicalIsStandard(source);
    CanonicalIsStandard(restored);
    FactsOfCanonical(source);
    FactsOfCanonical(restored);
    WithoutEmptyIff(a.schemas, b.schemas);
    WithoutEmptyIff(b.schemas, a.schemas);
    CompareEmptyIff(TableEntries(a.tables), TableEntries(b.tables));
    TableSetsEqualIff(a.tables, b.tables);
    CompareEmptyIff(SequenceEntries(a.sequences), SequenceEntries(b.sequences));
    SequenceSetsEqualIff(a.sequences, b.sequences);
    EnvironmentEmptyIff(a, b);
  }

  /** Manifests that compare as equal come from servers of the same version. */
  lemma EqualMeansSameVersion(source: Manifest, restored: Manifest)
    requires CompareDatabaseManifests(source, restored).Accepted?
    requires CompareDatabaseManifests(source, restored).value.kind == Equal
    ensures source.serverVersion == restored.serverVersion
  {
    assert ManifestValid(source) && ManifestValid(restored);
    hide ManifestValid, CompareDatabaseManifests;
    EqualIffSameFacts(source, restored);
  }

  lemma CanonicalKeepsRest(m: Manifest)
    ensures Canonical(m) == m.(tables := Canonical(m).tables)
  {
  }

  // ---- Consequences -----------------------------------------------------------------------------------

  ghost predicate SameContent(a: Manifest, b: Manifest) {
    var c := CompareDatabaseManifests(a, b);
    c.Accepted? && c.value.kind == Equal
  }

  /** On manifests that parse, comparing as equal is an equivalence relation. */
  lemma SameContentIsEquivalence(a: Manifest, b: Manifest, c: Manifest)
    requires ManifestValid(a) && ManifestValid(b) && ManifestValid(c)
    ensures SameContent(a, a)
    ensures SameContent(a, b) <==> SameContent(b, a)
    ensures SameContent(a, b) && SameContent(b, c) ==> SameContent(a, c)
  {
    hide CompareDatabaseManifests, FactsOf, ManifestValid;
    EqualIffSameFacts(a, a);
    EqualIffSameFacts(a, b);
    EqualIffSameFacts(b, a);
    EqualIffSameFacts(b, c);
    EqualIffSameFacts(a, c);
  }

  /** Swapping the arguments swaps missing with extra, list for list. */
  lemma SwapMirrors(a: Manifest, b: Manifest)
    requires ManifestValid(a) && ManifestValid(b)
    ensures
      var c := CompareDatabaseManifests(a, b).value;
      var d := CompareDatabaseManifests(b, a).value;
      && d.kind == c.kind
      && d.missingSchemas == c.extraSchemas && d.extraSchemas == c.missingSchemas
      && d.tables.missing == c.tables.extra && d.tables.extra == c.tables.missing
      && d.sequences.missing == c.sequences.extra && d.sequences.extra == c.sequences.missing
      && (forall n :: n in d.tables.mismatched <==> n in c.tables.mismatched)
      && (forall n :: n in d.sequences.mismatched <==> n in c.sequences.mismatched)
      && d.environmentMismatches == c.environmentMismatches
  {
    hide Canonical, Absent, Differing, Without, TableEntries, SequenceEntries, SortBy, FactsOf, ManifestValid, UniqueIds, Standard;
    EqualIffSameFacts(a, b);
    EqualIffSameFacts(b, a);
    CanonicalIsStandard(a);
    CanonicalIsStandard(b);
    CanonicalKeepsRest(a);
    CanonicalKeepsRest(b);
    MismatchesMirror(TableEntries(Canonical(a).tables), TableEntries(Canonical(b).tables));
    MismatchesMirror(SequenceEntries(a.sequences), SequenceEntries(b.sequences));
  }

  lemma MismatchesMirror<X>(left: seq<Entry<X>>, right: seq<Entry<X>>)
    requires UniqueIds(left) && UniqueIds(right)
    ensures forall n :: n in Differing(left, right) <==> n in Differing(right, left)
  {
    hide Differing, UniqueIds;
    forall n ensures n in Differing(left, right) <==> n in Differing(right, left) {
      DifferingMember(left, right, n);
      DifferingMember(right, left, n);
    }
  }

  ghost predicate Reordered(a: Manifest, b: Manifest) {
    && a.algorithm == b.algorithm && a.encoding == b.encoding && a.serverVersion == b.serverVersion
    && multiset(a.extensions) == multiset(b.extensions) && multiset(a.schemas) == multiset(b.schemas)
    && multiset(a.tables) == multiset(b.tables) && multiset(a.sequences) == multiset(b.sequences)
  }

  lemma SameMembers<X>(a: seq<X>, b: seq<X>)
    requires multiset(a) == multiset(b)
    ensures SetOf(a) == SetOf(b) && forall x :: x in a <==> x in b
  {
    forall x ensures x in a <==> x in b { assert x in multiset(a) <==> x in multiset(b); }
  }

  lemma OccursTwice<X>(s: seq<X>, i: nat, j: nat)
    requires i < j < |s| && s[i] == s[j]
    ensures multiset(s)[s[i]] >= 2
  {
    assert s == s[..j] + [s[j]] + s[j + 1..];
    assert s[i] == s[..j][i];
    assert multiset(s) == multiset(s[..j]) + multiset{s[j]} + multiset(s[j + 1..]);
  }

  /** Repeated keys are a property of the multiset. */
  lemma {:induction false} UniquePermutes<X>(a: seq<X>, b: seq<X>, key: X -> string)
    requires multiset(a) == multiset(b) && Unique(a, key)
    ensures Unique(b, key)
  {
    SameMembers(a, b);
    forall i, j | 0 <= i < j < |b| ensures key(b[i]) != key(b[j]) {
      assert b[i] in a && b[j] in a;
      var k :| 0 <= k < |a| && a[k] == b[i];
      var l :| 0 <= l < |a| && a[l] == b[j];
      if key(b[i]) == key(b[j]) {
        assert k == l;
        UniqueOccursOnce(a, key, b[i]);
        OccursTwice(b, i, j);
        assert false;
      }
    }
  }

  lemma ReorderedValid(a: Manifest, b: Manifest)
    requires Reordered(a, b) && ManifestValid(a)
    ensures ManifestValid(b)
  {
    hide KeyOf, Unique, T.ChainValid;
    UniquePermutes(a.schemas, b.schemas, SELF_KEY);
    UniquePermutes(a.tables, b.tables, TABLE_KEY);
    UniquePermutes(a.sequences, b.sequences, SEQUENCE_KEY);
    UniquePermutes(a.extensions, b.extensions, EXTENSION_KEY);
    SameMembers(a.schemas, b.schemas);
    SameMembers(a.tables, b.tables);
    SameMembers(a.sequences, b.sequences);
    forall t | t in b.tables ensures TableValid(b, t) {
      assert TableValid(a, t);
    }
  }

  /** Listing any inventory in another order changes neither validity nor the verdict. */
  lemma OrderDoesNotMatter(a: Manifest, b: Manifest, other: Manifest)
    requires Reordered(a, b)
    ensures ManifestValid(a) <==> ManifestValid(b)
    ensures SameContent(a, other) <==> SameContent(b, other)
  {
    if ManifestValid(a) { ReorderedValid(a, b); }
    if ManifestValid(b) { ReorderedValid(b, a); }
    if ManifestValid(a) && ManifestValid(other) {
      SameMembers(a.extensions, b.extensions);
      SameMembers(a.schemas, b.schemas);
      SameMembers(a.tables, b.tables);
      SameMembers(a.sequences, b.sequences);
      assert FactsOf(a) == FactsOf(b) by { hide FactOf; }
      EqualIffSameFacts(a, other);
      EqualIffSameFacts(b, other);
    }
  }

  // ---- What the difference lists contain ----------------------------------------------------------------

  lemma {:induction false} WithoutMember(a: seq<string>, b: seq<string>, s: string)
    ensures s in Without(a, b) <==> s in a && s !in b
    decreases |a|
  {
    if a != [] {
      WithoutMember(a[1..], b, s);
      assert a == [a[0]] + a[1..];
    }
  }

  predicate HasId<X>(entries: seq<Entry<X>>, n: Name) { exists i :: 0 <= i < |entries| && entries[i].id == n }

  lemma HasKeyIff<X>(entries: seq<Entry<X>>, n: Name)
    ensures HasKey(entries, n) <==> HasId(entries, n)
  {
    hide KeyOf;
    if HasKey(entries, n) {
      var i :| 0 <= i < |entries| && KeyOf(entries[i].id) == KeyOf(n);
      NameKeyInjective(entries[i].id, n);
    }
  }

  lemma {:induction false} AbsentMember<X>(left: seq<Entry<X>>, right: seq<Entry<X>>, n: Name)
    ensures n in Absent(left, right) <==> HasId(left, n) && !HasId(right, n)
    decreases |left|
  {
    hide KeyOf;
    if left != [] {
      AbsentMember(left[1..], right, n);
      HasKeyIff(right, left[0].id);
      assert left == [left[0]] + left[1..];
      assert HasId(left, n) <==> left[0].id == n || HasId(left[1..], n) by { HasIdCons(left, n); }
    }
  }

  lemma HasIdCons<X>(entries: seq<Entry<X>>, n: Name)
    requires entries != []
    ensures HasId(entries, n) <==> entries[0].id == n || HasId(entries[1..], n)
  {
    if HasId(entries, n) {
      var i :| 0 <= i < |entries| && entries[i].id == n;
      assert i > 0 ==> entries[1..][i - 1].id == n;
    }
    if HasId(entries[1..], n) {
      var i :| 0 <= i < |entries[1..]| && entries[1..][i].id == n;
      assert entries[i + 1].id == n;
    }
  }

  lemma {:induction false} DifferingMember<X>(left: seq<Entry<X>>, right: seq<Entry<X>>, n: Name)
    requires UniqueIds(right)
    ensures n in Differing(left, right) <==>
      exists e, f :: e in left && f in right && e.id == f.id == n && e.value != f.value
    decreases |left|
  {
    hide KeyOf, Lookup;
    if left != [] {
      DifferingMember(left[1..], right, n);
      var e := left[0];
      assert left == [e] + left[1..];
      HasKeyIff(right, e.id);
      if HasKey(right, e.id) {
        var i :| 0 <= i < |right| && right[i].id == e.id;
        LookupFinds(right, right[i], e.id);
        forall f | f in right && f.id == e.id ensures f == right[i] { LookupFinds(right, f, e.id); }
      }
    }
  }

  /** Missing, extra and mismatched relations are exactly what their names say, for every pair of entry lists. */
  lemma DiffMeans<X>(left: seq<Entry<X>>, right: seq<Entry<X>>)
    requires UniqueIds(right)
    ensures
      var d := Compare(left, right);
      && (forall n :: n in d.missing <==> HasId(left, n) && !HasId(right, n))
      && (forall n :: n in d.extra <==> HasId(right, n) && !HasId(left, n))
      && (forall n :: n in d.mismatched <==>
            exists e, f :: e in left && f in right && e.id == f.id == n && e.value != f.value)
  {
    hide KeyOf, Lookup, HasId;
    forall n ensures n in Absent(left, right) <==> HasId(left, n) && !HasId(right, n) { AbsentMember(left, right, n); }
    forall n ensures n in Absent(right, left) <==> HasId(right, n) && !HasId(left, n) { AbsentMember(right, left, n); }
    forall n ensures n in Differing(left, right) <==>
        exists e, f :: e in left && f in right && e.id == f.id == n && e.value != f.value {
      DifferingMember(left, right, n);
    }
  }

  ghost predicate HasTable(m: Manifest, n: Name) { exists t :: t in m.tables && t.id == n }

  ghost predicate HasSequence(m: Manifest, n: Name) { exists q :: q in m.sequences && q.id == n }

  lemma TableIds(m: Manifest, n: Name)
    ensures HasId(TableEntries(Canonical(m).tables), n) <==> HasTable(m, n)
  {
    CanonicalTablesAt(m.tables);
    hide SortBy, CanonicalColumns;
    var es := TableEntries(Canonical(m).tables);
    if HasId(es, n) {
      var i :| 0 <= i < |es| && es[i].id == n;
      assert m.tables[i] in m.tables;
    }
    if HasTable(m, n) {
      var t :| t in m.tables && t.id == n;
      var i :| 0 <= i < |m.tables| && m.tables[i] == t;
      assert es[i].id == n;
    }
  }

  lemma SequenceIds(m: Manifest, n: Name)
    ensures HasId(SequenceEntries(m.sequences), n) <==> HasSequence(m, n)
  {
    var es := SequenceEntries(m.sequences);
    if HasId(es, n) {
      var i :| 0 <= i < |es| && es[i].id == n;
      assert m.sequences[i] in m.sequences;
    }
    if HasSequence(m, n) {
      var q :| q in m.sequences && q.id == n;
      var i :| 0 <= i < |m.sequences| && m.sequences[i] == q;
      assert es[i].id == n;
    }
  }

  /** `e` names a part of the environment in which the manifests differ; extensions are compared as a set. */
  ghost predicate EnvironmentDiffers(a: Manifest, b: Manifest, e: string) {
    || (e == "algorithm" && a.algorithm != b.algorithm)
    || (e == "encoding" && a.encoding != b.encoding)
    || (e == "server_version" && a.serverVersion != b.serverVersion)
    || (e == "extensions" && exists x :: !(x in a.extensions <==> x in b.extensions))
  }

  lemma ExtensionsDiffer(a: Manifest, b: Manifest)
    requires ManifestValid(a) && ManifestValid(b)
    ensures SortBy(a.extensions, EXTENSION_KEY) == SortBy(b.extensions, EXTENSION_KEY) <==>
      forall x :: x in a.extensions <==> x in b.extensions
  {
    hide TableValid, SortBy;
    SortedUniqueEqualIff(a.extensions, b.extensions, EXTENSION_KEY);
    assert forall x :: x in a.extensions <==> x in SetOf(a.extensions);
    assert forall x :: x in b.extensions <==> x in SetOf(b.extensions);
  }

  /** Every schema and relation list of a comparison holds what its name says about the two manifests. */
  lemma ComparisonMeans(source: Manifest, restored: Manifest)
    requires ManifestValid(source) && ManifestValid(restored)
    ensures
      var c := CompareDatabaseManifests(source, restored).value;
      && (forall s :: s in c.missingSchemas <==> s in source.schemas && s !in restored.schemas)
      && (forall s :: s in c.extraSchemas <==> s in restored.schemas && s !in source.schemas)
      && (forall n :: n in c.tables.missing <==> HasTable(source, n) && !HasTable(restored, n))
      && (forall n :: n in c.tables.extra <==> HasTable(restored, n) && !HasTable(source, n))
      && (forall n :: n in c.sequences.missing <==> HasSequence(source, n) && !HasSequence(restored, n))
      && (forall n :: n in c.sequences.extra <==> HasSequence(restored, n) && !HasSequence(source, n))
      && (forall e :: e in c.environmentMismatches <==> EnvironmentDiffers(source, restored, e))
  {
    hide Canonical, Without, TableEntries, SequenceEntries, SortBy, ManifestValid, UniqueIds, Standard, HasId, Compare, HasTable,
         HasSequence;
    var a, b := TableEntries(Canonical(source).tables), TableEntries(Canonical(restored).tables);
    ExtensionsDiffer(source, restored);
    CanonicalKeepsRest(source);
    CanonicalKeepsRest(restored);
    CanonicalIsStandard(source);
    CanonicalIsStandard(restored);
    DiffMeans(a, b);
    DiffMeans(SequenceEntries(source.sequences), SequenceEntries(restored.sequences));
    forall s ensures s in Without(source.schemas, restored.schemas) <==> s in source.schemas && s !in restored.schemas {
      WithoutMember(source.schemas, restored.schemas, s);
    }
    forall s ensures s in Without(restored.schemas, source.schemas) <==> s in restored.schemas && s !in source.schemas {
      WithoutMember(restored.schemas, source.schemas, s);
    }
    forall n ensures (HasId(a, n) <==> HasTable(source, n)) && (HasId(b, n) <==> HasTable(restored, n)) {
      TableIds(source, n);
      TableIds(restored, n);
    }
    forall n
      ensures HasId(SequenceEntries(source.sequences), n) <==> HasSequence(source, n)
      ensures HasId(SequenceEntries(restored.sequences), n) <==> HasSequence(restored, n)
    {
      SequenceIds(source, n);
      SequenceIds(restored, n);
    }
  }

  lemma EntriesOfCanonical(m: Manifest, e: Entry<Table>)
    ensures e in TableEntries(Canonical(m).tables) <==> exists t :: t in m.tables && e == EntryOf(CanonicalTable(t))
  {
    CanonicalTablesAt(m.tables);
    EntriesAre(Canonical(m).tables);
    hide TableEntries, CanonicalTable, EntryOf, CanonicalTables;
    var ts := CanonicalTables(m.tables);
    assert e in TableEntries(ts) <==> e in SetOf(TableEntries(ts));
    if e in EntrySet(ts) {
      var u :| u in ts && EntryOf(u) == e;
      var i :| 0 <= i < |ts| && ts[i] == u;
      assert m.tables[i] in m.tables;
    }
    if t :| t in m.tables && e == EntryOf(CanonicalTable(t)) {
      var i :| 0 <= i < |m.tables| && m.tables[i] == t;
      assert ts[i] in ts;
    }
  }

  /** Two tables of valid manifests have equal entries exactly when they state the same fact. */
  lemma EntriesTellFacts(a: Manifest, b: Manifest, t: Table, u: Table)
    requires ManifestValid(a) && ManifestValid(b) && t in a.tables && u in b.tables
    ensures EntryOf(CanonicalTable(t)) == EntryOf(CanonicalTable(u)) <==> FactOf(t) == FactOf(u)
    ensures EntryOf(CanonicalTable(t)).id == t.id && EntryOf(CanonicalTable(u)).id == u.id
  {
    assert TableValid(a, t) && TableValid(b, u);
    CanonicalTableIdempotent(t);
    CanonicalTableIdempotent(u);
    CanonicalKeepsParents(t);
    CanonicalKeepsParents(u);
    hide CanonicalColumns, Unique, SortBy, KeyOf;
    TableEntriesEqualIff(CanonicalTable(t), CanonicalTable(u));
  }

  lemma TableMismatch(a: Manifest, b: Manifest, n: Name)
    requires ManifestValid(a) && ManifestValid(b)
    requires UniqueIds(TableEntries(Canonical(b).tables))
    ensures n in Differing(TableEntries(Canonical(a).tables), TableEntries(Canonical(b).tables)) <==>
      exists t, u :: t in a.tables && u in b.tables && t.id == u.id == n && FactOf(t) != FactOf(u)
  {
    var left, right := TableEntries(Canonical(a).tables), TableEntries(Canonical(b).tables);
    hide Canonical, TableEntries, ManifestValid, UniqueIds, FactOf, EntryOf, CanonicalTable, Differing;
    DifferingMember(left, right, n);
    if e, f :| e in left && f in right && e.id == f.id == n && e.value != f.value {
      EntriesOfCanonical(a, e);
      EntriesOfCanonical(b, f);
      var t :| t in a.tables && e == EntryOf(CanonicalTable(t));
      var u :| u in b.tables && f == EntryOf(CanonicalTable(u));
      EntriesTellFacts(a, b, t, u);
    }
    if t, u :| t in a.tables && u in b.tables && t.id == u.id == n && FactOf(t) != FactOf(u) {
      EntriesTellFacts(a, b, t, u);
      var e, f := EntryOf(CanonicalTable(t)), EntryOf(CanonicalTable(u));
      EntriesOfCanonical(a, e);
      EntriesOfCanonical(b, f);
      assert e.value != f.value;
    }
  }

  /** A table is mismatched when both sides have it and it is not the same table, a sequence when it differs at all. */
  lemma MismatchesMean(source: Manifest, restored: Manifest, n: Name)
    requires ManifestValid(source) && ManifestValid(restored)
    ensures
      var c := CompareDatabaseManifests(source, restored).value;
      && (n in c.tables.mismatched <==>
            exists t, u :: t in source.tables && u in restored.tables && t.id == u.id == n && !SameTable(t, u))
      && (n in c.sequences.mismatched <==>
            exists p, q :: p in source.sequences && q in restored.sequences && p.id == q.id == n && p != q)
  {
    hide Canonical, TableEntries, SequenceEntries, SortBy, ManifestValid, UniqueIds, Standard, FactOf, SameTable, Differing,
         Absent, Without;
    CanonicalKeepsRest(source);
    CanonicalKeepsRest(restored);
    CanonicalIsStandard(source);
    CanonicalIsStandard(restored);
    TableMismatch(source, restored, n);
    forall t, u ensures FactOf(t) == FactOf(u) <==> SameTable(t, u) { SameFactIff(t, u); }
    DifferingMember(SequenceEntries(source.sequences), SequenceEntries(restored.sequences), n);
    SequenceEntriesAre(source.sequences);
    SequenceEntriesAre(restored.sequences);
    forall p, q | p in source.sequences && q in restored.sequences && p.id == q.id == n && p != q
      ensures n in Differing(SequenceEntries(source.sequences), SequenceEntries(restored.sequences))
    {
      assert Entry(n, p) in SequenceEntries(source.sequences) && Entry(n, q) in SequenceEntries(restored.sequences);
    }
  }

  // ---- Said outright ---------------------------------------------------------------------------------

  ghost predicate Paired(ts: seq<Table>, us: seq<Table>) {
    forall t :: t in ts ==> exists u :: u in us && SameTable(t, u)
  }

  /** Two valid manifests compare as equal exactly when they list the same things, whatever the order of the lists. */
  lemma EqualMeans(a: Manifest, b: Manifest)
    requires ManifestValid(a) && ManifestValid(b)
    ensures SameContent(a, b) <==>
      && a.algorithm == b.algorithm && a.encoding == b.encoding && a.serverVersion == b.serverVersion
      && (forall x :: x in a.extensions <==> x in b.extensions)
      && (forall s :: s in a.schemas <==> s in b.schemas)
      && (forall q :: q in a.sequences <==> q in b.sequences)
      && Paired(a.tables, b.tables) && Paired(b.tables, a.tables)
  {
    EqualIffSameFacts(a, b);
    PairedIff(a.tables, b.tables);
    PairedIff(b.tables, a.tables);
    hide ManifestValid, CompareDatabaseManifests, FactSet, Paired;
    SetsEqualIff(a.extensions, b.extensions);
    SetsEqualIff(a.schemas, b.schemas);
    SetsEqualIff(a.sequences, b.sequences);
    hide SetOf;
  }

  lemma SetsEqualIff<X>(s: seq<X>, t: seq<X>)
    ensures SetOf(s) == SetOf(t) <==> forall x :: x in s <==> x in t
  {
    assert forall x :: x in s <==> x in SetOf(s);
    assert forall x :: x in t <==> x in SetOf(t);
  }

  lemma PairedIff(ts: seq<Table>, us: seq<Table>)
    ensures Paired(ts, us) <==> FactSet(ts) <= FactSet(us)
  {
    hide FactOf, SameTable;
    forall t, u ensures FactOf(t) == FactOf(u) <==> SameTable(t, u) { SameFactIff(t, u); }
    if Paired(ts, us) {
      forall t | t in ts ensures FactOf(t) in FactSet(us) {
        var u :| u in us && SameTable(t, u);
      }
    }
    if FactSet(ts) <= FactSet(us) {
      forall t | t in ts ensures exists u :: u in us && SameTable(t, u) {
        assert FactOf(t) in FactSet(us);
      }
    }
  }

  ghost predicate Declared(c: Column, dimensions: nat) {
    dimensions == if exists j :: 0 <= j < |c.chain| && c.chain[j].kind == T.Array then 0 else c.dimensions
  }

  /** The parser keeps every table as it is, but for the declared dimensions of array columns, which become zero. */
  lemma ParsedTables(m: Manifest, i: nat)
    requires ManifestValid(m) && i < |m.tables|
    ensures
      var p := ParseDatabaseManifest(m);
      && p.Accepted? && p.value == m.(tables := p.value.tables) && |p.value.tables| == |m.tables|
      && var t, u := m.tables[i], p.value.tables[i];
         && SameTable(t, u) && u.parents == t.parents
         && (forall k :: 0 <= k < |t.columns| ==> Declared(t.columns[k], u.columns[k].dimensions))
  {
    hide ManifestValid;
    CanonicalTablesAt(m.tables);
    CanonicalColumnsAt(m.tables[i].columns);
    var u := Canonical(m).tables[i];
    CanonicalTableIdempotent(m.tables[i]);
    CanonicalKeepsParents(m.tables[i]);
    assert u == CanonicalTable(m.tables[i]);
    assert FactOf(u) == FactOf(m.tables[i]);
    SameFactIff(m.tables[i], u);
  }

  ghost predicate NoneTwice<X>(s: seq<X>) { forall i, j :: 0 <= i < j < |s| ==> s[i] != s[j] }

  ghost predicate WellFormedTable(m: Manifest, t: Table) {
    && t.id.schema in m.schemas && t.kind != 'f' && t.persistence != 't' && (t.kind == 'p' ==> t.rows == "0")
    && NoneTwice(t.parents) && (forall p :: p in t.parents ==> exists u :: u in m.tables && u.id == p)
    && (forall i, j :: 0 <= i < j < |t.columns| ==> t.columns[i].name != t.columns[j].name)
    && (forall i :: 0 <= i < |t.columns| ==>
          T.ChainValid(t.columns[i].chain) && t.columns[i].columnType == t.columns[i].chain[0].id)
  }

  /** What the parser demands of an inventory, said of the names themselves. */
  lemma ValidMeans(m: Manifest)
    ensures ManifestValid(m) <==>
      && NoneTwice(m.schemas)
      && (forall i, j :: 0 <= i < j < |m.tables| ==> m.tables[i].id != m.tables[j].id)
      && (forall i, j :: 0 <= i < j < |m.sequences| ==> m.sequences[i].id != m.sequences[j].id)
      && (forall i, j :: 0 <= i < j < |m.extensions| ==> m.extensions[i].name != m.extensions[j].name)
      && (forall q :: q in m.sequences ==> q.id.schema in m.schemas)
      && (forall t :: t in m.tables ==> WellFormedTable(m, t))
  {
    hide KeyOf, T.ChainValid;
    forall a, b ensures KeyOf(a) == KeyOf(b) <==> a == b {
      if KeyOf(a) == KeyOf(b) { NameKeyInjective(a, b); }
    }
    forall t ensures TableValid(m, t) <==> WellFormedTable(m, t) { TableValidIff(m, t); }
    assert forall i :: 0 <= i < |m.tables| ==> TABLE_KEY(m.tables[i]) == KeyOf(m.tables[i].id);
    assert forall i :: 0 <= i < |m.sequences| ==> SEQUENCE_KEY(m.sequences[i]) == KeyOf(m.sequences[i].id);
    hide TableValid, WellFormedTable;
  }

  lemma TableValidIff(m: Manifest, t: Table)
    ensures TableValid(m, t) <==> WellFormedTable(m, t)
  {
    hide KeyOf, T.ChainValid;
    forall a, b ensures KeyOf(a) == KeyOf(b) <==> a == b {
      if KeyOf(a) == KeyOf(b) { NameKeyInjective(a, b); }
    }
    assert Unique(t.parents, NAME_KEY) <==> NoneTwice(t.parents);
    assert (forall c :: c in t.columns ==> ColumnValid(c)) <==> (forall i :: 0 <= i < |t.columns| ==> ColumnValid(t.columns[i]));
    forall chain ensures T.ChainValid(chain) ==> chain != [] { ChainNotEmpty(chain); }
    assert forall c :: ColumnValid(c) <==> T.ChainValid(c.chain) && c.columnType == c.chain[0].id;
    hide ColumnValid;
  }

  lemma ChainNotEmpty(chain: seq<T.Link>)
    ensures T.ChainValid(chain) ==> chain != []
  {
  }
}
