/**
 * Resolution of a column type to the chain of domains and arrays above one
 * builtin, enum or vector type, over a catalog that may be cyclic.
 */
module TypeChain {

  type Oid = string

  datatype Name = Name(schema: string, name: string)
  datatype LinkKind = Builtin | Vector | Enum | Domain | Array

  /** A catalog row; `kind` and `category` are the one-letter codes of the system catalog. */
  datatype CatalogType = CatalogType(
    id: Name, kind: char, category: char, base: Oid, element: Oid, modifier: int, notNull: bool,
    extension: string, labels: seq<string>, output: Name)

  datatype Link = Link(id: Name, kind: LinkKind, labels: seq<string>, notNull: bool, modifier: int)

  datatype Outcome<T> = Ok(value: T) | Err(reason: Reason)
  datatype Reason = MissingOrRecursive | UnsupportedType | UnsupportedOutput | InvalidChain

  type Catalog = map<Oid, CatalogType>

  const BUILTIN_OUTPUTS: map<string, string> := map[
    "bool" := "boolout", "int2" := "int2out", "int4" := "int4out", "int8" := "int8out",
    "float4" := "float4out", "float8" := "float8out", "numeric" := "numeric_out", "text" := "textout",
    "varchar" := "varcharout", "bpchar" := "bpcharout", "name" := "nameout", "bytea" := "byteaout",
    "uuid" := "uuid_out", "json" := "json_out", "jsonb" := "jsonb_out", "date" := "date_out",
    "time" := "time_out", "timetz" := "timetz_out", "timestamp" := "timestamp_out",
    "timestamptz" := "timestamptz_out", "interval" := "interval_out", "bit" := "bit_out",
    "varbit" := "varbit_out", "inet" := "inet_out", "cidr" := "cidr_out", "macaddr" := "macaddr_out",
    "macaddr8" := "macaddr8_out", "xml" := "xml_out", "tsvector" := "tsvectorout", "tsquery" := "tsqueryout",
    "point" := "point_out", "line" := "line_out", "lseg" := "lseg_out", "box" := "box_out",
    "path" := "path_out", "polygon" := "poly_out", "circle" := "circle_out"]

  const PG_CATALOG := "pg_catalog"

  // ---- One type ------------------------------------------------------------------------------

  function KindOf(t: CatalogType): Outcome<LinkKind> {
    if t.kind == 'd' then Ok(Domain)
    else if t.category == 'A' && t.element != "0" then Ok(Array)
    else if t.kind == 'e' then Ok(Enum)
    else if t.kind == 'b' && t.extension == "vector" && t.id.name == "vector" then Ok(Vector)
    else if t.kind == 'b' && t.id.schema == PG_CATALOG && t.id.name in BUILTIN_OUTPUTS then Ok(Builtin)
    else Err(UnsupportedType)
  }

  /** The text output function is the standard one, or for a domain the one of its base type. */
  predicate OutputSupported(types: Catalog, t: CatalogType, kind: LinkKind) {
    match kind
    case Builtin => t.id.name in BUILTIN_OUTPUTS && t.output == Name(PG_CATALOG, BUILTIN_OUTPUTS[t.id.name])
    case Array => t.output == Name(PG_CATALOG, "array_out")
    case Enum => t.output == Name(PG_CATALOG, "enum_out")
    case Vector => t.output == Name(t.id.schema, "vector_out")
    case Domain => t.base in types && types[t.base].output == t.output
  }

  predicate Wraps(kind: LinkKind) { kind == Domain || kind == Array }

  function Below(t: CatalogType, kind: LinkKind): Oid { if kind == Domain then t.base else t.element }

  function LinkFor(t: CatalogType, kind: LinkKind): Link { Link(t.id, kind, t.labels, t.notNull, t.modifier) }

  // ---- Validation of a finished chain -----------------------------------------------------------

  predicate Distinct<T(==)>(s: seq<T>) { forall i, j :: 0 <= i < j < |s| ==> s[i] != s[j] }

  predicate DistinctNames(chain: seq<Link>) { forall i, j :: 0 <= i < j < |chain| ==> chain[i].id != chain[j].id }

  predicate LinkValid(link: Link) {
    match link.kind
    case Builtin => link.id.schema == PG_CATALOG && link.id.name in BUILTIN_OUTPUTS
    case Enum => link.labels != [] && Distinct(link.labels)
    case Vector => link.id.name == "vector"
    case _ => true
  }

  predicate ChainValid(chain: seq<Link>) {
    && DistinctNames(chain)
    && (forall i :: 0 <= i < |chain| - 1 ==> Wraps(chain[i].kind))
    && (forall i :: 0 <= i < |chain| ==> LinkValid(chain[i]))
    && chain != [] && !Wraps(chain[|chain| - 1].kind)
  }

  // ---- The builtin types, by name ------------------------------------------------------------------

  ghost predicate PlainNamed(n: string) {
    || n in {"bool", "int2", "int4", "int8"}
    || n in {"float4", "float8", "text", "varchar"}
    || n in {"bpchar", "name", "bytea", "tsvector", "tsquery"}
  }

  ghost predicate SplitNamed(n: string) {
    || n in {"numeric", "uuid", "json", "jsonb", "date", "time"}
    || n in {"timetz", "timestamp", "timestamptz", "interval", "bit"}
    || n in {"varbit", "inet", "cidr", "macaddr", "macaddr8", "xml"}
    || n in {"point", "line", "lseg", "box", "path", "circle"}
  }

  ghost predicate BuiltinNamed(n: string) { PlainNamed(n) || SplitNamed(n) || n == "polygon" }

  /** A builtin type prints by the function named after it; only the name of polygons is cut. */
  lemma OutputNames(n: string)
    ensures n in BUILTIN_OUTPUTS <==> BuiltinNamed(n)
    ensures PlainNamed(n) ==> BUILTIN_OUTPUTS[n] == n + "out"
    ensures SplitNamed(n) ==> BUILTIN_OUTPUTS[n] == n + "_out"
    ensures BUILTIN_OUTPUTS["polygon"] == "poly_out"
  {
    if n in BUILTIN_OUTPUTS { ListedIsNamed(n); }
    PolygonOutput();
    PlainOutputs1(n);
    PlainOutputs2(n);
    PlainOutputs3(n);
    SplitOutputs1(n);
    SplitOutputs2(n);
    SplitOutputs3(n);
    SplitOutputs4(n);
    hide BUILTIN_OUTPUTS;
  }

  lemma ListedIsNamed(n: string)
    requires n in BUILTIN_OUTPUTS
    ensures BuiltinNamed(n)
  {
  }

  lemma PolygonOutput()
    ensures "polygon" in BUILTIN_OUTPUTS && BUILTIN_OUTPUTS["polygon"] == "poly_out"
  {
  }

  lemma PlainOutputs1(n: string)
    ensures n in {"bool", "int2", "int4", "int8"} ==> n in BUILTIN_OUTPUTS && BUILTIN_OUTPUTS[n] == n + "out"
  {
  }

  lemma PlainOutputs2(n: string)
    ensures n in {"float4", "float8", "text", "varchar"} ==> n in BUILTIN_OUTPUTS && BUILTIN_OUTPUTS[n] == n + "out"
  {
  }

  lemma PlainOutputs3(n: string)
    ensures n in {"bpchar", "name", "bytea", "tsvector", "tsquery"} ==> n in BUILTIN_OUTPUTS && BUILTIN_OUTPUTS[n] == n + "out"
  {
  }

  lemma SplitOutputs1(n: string)
    ensures n in {"numeric", "uuid", "json", "jsonb", "date", "time"} ==> n in BUILTIN_OUTPUTS && BUILTIN_OUTPUTS[n] == n + "_out"
  {
  }

  lemma SplitOutputs2(n: string)
    ensures n in {"timetz", "timestamp", "timestamptz", "interval", "bit"} ==> n in BUILTIN_OUTPUTS && BUILTIN_OUTPUTS[n] == n + "_out"
  {
  }

  lemma SplitOutputs3(n: string)
    ensures n in {"varbit", "inet", "cidr", "macaddr", "macaddr8", "xml"} ==> n in BUILTIN_OUTPUTS && BUILTIN_OUTPUTS[n] == n + "_out"
  {
  }

  lemma SplitOutputs4(n: string)
    ensures n in {"point", "line", "lseg", "box", "path", "circle"} ==> n in BUILTIN_OUTPUTS && BUILTIN_OUTPUTS[n] == n + "_out"
  {
  }

  // ---- Resolution --------------------------------------------------------------------------------

  /** The type at `oid` exists, has a supported kind and a supported output function. */
  predicate Usable(types: Catalog, oid: Oid) {
    oid in types && KindOf(types[oid]).Ok? && OutputSupported(types, types[oid], KindOf(types[oid]).value)
  }

  /** `oids` starts at `oid` and each wrapping type is followed by the type it wraps. */
  ghost predicate Linked(types: Catalog, oid: Oid, oids: seq<Oid>) {
    && (forall i :: 0 <= i < |oids| ==> Usable(types, oids[i]))
    && (oids != [] ==> oids[0] == oid)
    && (forall i {:trigger Follows(types, oids, i)} :: 0 < i < |oids| ==> Follows(types, oids, i))
  }

  ghost predicate Follows(types: Catalog, oids: seq<Oid>, i: nat) {
    0 < i < |oids| && Wraps(KindAt(types, oids[i - 1])) && oids[i] == NextAt(types, oids[i - 1])
  }

  function KindAt(types: Catalog, oid: Oid): LinkKind {
    if oid in types && KindOf(types[oid]).Ok? then KindOf(types[oid]).value else Builtin
  }

  function NextAt(types: Catalog, oid: Oid): Oid {
    if oid in types then Below(types[oid], KindAt(types, oid)) else ""
  }

  /** A linked run that has reached a type which wraps nothing. */
  ghost predicate Complete(types: Catalog, oid: Oid, oids: seq<Oid>) {
    oids != [] && Linked(types, oid, oids) && !Wraps(KindAt(types, oids[|oids| - 1]))
  }

  function Links(types: Catalog, oids: seq<Oid>): seq<Link> {
    seq(|oids|, i requires 0 <= i < |oids| =>
      if oids[i] in types then LinkFor(types[oids[i]], KindAt(types, oids[i])) else Link(Name("", ""), Builtin, [], false, 0))
  }

  /** A linked run is determined by its length. */
  lemma {:induction false} LinkedUnique(types: Catalog, oid: Oid, a: seq<Oid>, b: seq<Oid>, i: nat)
    requires Linked(types, oid, a) && Linked(types, oid, b) && i < |a| && i < |b|
    ensures a[i] == b[i]
    decreases i
  {
    if i > 0 {
      LinkedUnique(types, oid, a, b, i - 1);
      assert Follows(types, a, i) && Follows(types, b, i);
    }
  }

  lemma OnlyLastEnds(types: Catalog, oid: Oid, oids: seq<Oid>, i: nat)
    requires Linked(types, oid, oids) && i + 1 < |oids|
    ensures Wraps(KindAt(types, oids[i])) && oids[i + 1] == NextAt(types, oids[i])
  {
    assert Follows(types, oids, i + 1);
  }

  lemma CompleteUnique(types: Catalog, oid: Oid, a: seq<Oid>, b: seq<Oid>)
    requires Complete(types, oid, a) && Complete(types, oid, b)
    ensures a == b
  {
    NoLonger(types, oid, a, b);
    NoLonger(types, oid, b, a);
    forall i | 0 <= i < |a| ensures a[i] == b[i] {
      LinkedUnique(types, oid, a, b, i);
    }
  }

  lemma NoLonger(types: Catalog, oid: Oid, a: seq<Oid>, b: seq<Oid>)
    requires Complete(types, oid, a) && Linked(types, oid, b)
    ensures |b| <= |a|
  {
    var last := |a| - 1;
    if |a| < |b| {
      LinkedUnique(types, oid, a, b, last);
      OnlyLastEnds(types, oid, b, last);
      assert false;
    }
  }

  /** `oids` have been followed, and `current` is the type to look at next. */
  ghost predicate Following(types: Catalog, oid: Oid, oids: seq<Oid>, current: Oid) {
    && Linked(types, oid, oids)
    && if oids == [] then current == oid else
         Wraps(KindAt(types, oids[|oids| - 1])) && current == NextAt(types, oids[|oids| - 1])
  }

  /** Why the run cannot go on to `current`, if it cannot. */
  predicate Obstructed(types: Catalog, oids: seq<Oid>, current: Oid, reason: Reason) {
    match reason
    case MissingOrRecursive => current !in types || current in oids
    case UnsupportedType => current in types && current !in oids && KindOf(types[current]).Err?
    case UnsupportedOutput =>
      && current in types && current !in oids && KindOf(types[current]).Ok?
      && !OutputSupported(types, types[current], KindOf(types[current]).value)
    case InvalidChain => false
  }

  /** The run from `oid` meets its first unusable or repeated type right behind `oids`. */
  ghost predicate StopsAt(types: Catalog, oid: Oid, oids: seq<Oid>, current: Oid, reason: Reason) {
    Following(types, oid, oids, current) && Distinct(oids) && Obstructed(types, oids, current, reason)
  }

  ghost predicate Stops(types: Catalog, oid: Oid, reason: Reason) {
    exists oids, current :: StopsAt(types, oid, oids, current, reason)
  }

  /** No run stops in two places, so none stops for two reasons. */
  lemma StopsOnce(types: Catalog, oid: Oid, a: seq<Oid>, x: Oid, reason: Reason, b: seq<Oid>, y: Oid, other: Reason)
    requires StopsAt(types, oid, a, x, reason) && StopsAt(types, oid, b, y, other)
    ensures a == b && x == y && reason == other
  {
    hide KindOf, OutputSupported;
    NoEarlierStop(types, oid, a, x, reason, b, y);
    NoEarlierStop(types, oid, b, y, other, a, x);
    forall i | 0 <= i < |a| ensures a[i] == b[i] {
      LinkedUnique(types, oid, a, b, i);
    }
  }

  lemma NoEarlierStop(types: Catalog, oid: Oid, a: seq<Oid>, x: Oid, reason: Reason, b: seq<Oid>, y: Oid)
    requires StopsAt(types, oid, a, x, reason) && Following(types, oid, b, y) && Distinct(b)
    ensures |b| <= |a|
  {
    hide KindOf, OutputSupported;
    var n := |a|;
    if n < |b| {
      ObstructedMeans(types, a, x, reason);
      if n > 0 {
        LinkedUnique(types, oid, a, b, n - 1);
        OnlyLastEnds(types, oid, b, n - 1);
      }
      assert b[n] == x && Usable(types, x);
      var k :| 0 <= k < n && a[k] == x;
      LinkedUnique(types, oid, a, b, k);
      assert false;
    }
  }

  lemma ObstructedMeans(types: Catalog, oids: seq<Oid>, current: Oid, reason: Reason)
    requires Obstructed(types, oids, current, reason)
    ensures !Usable(types, current) || current in oids
  {
  }

  /** A run that stops for one reason stops for no other, and is never completed. */
  lemma StopDecides(types: Catalog, oid: Oid, oids: seq<Oid>, current: Oid, reason: Reason)
    requires StopsAt(types, oid, oids, current, reason)
    ensures forall other :: Stops(types, oid, other) <==> other == reason
    ensures forall other :: !Complete(types, oid, other)
  {
    hide Following, Complete, Obstructed, Distinct;
    ObstructedMeans(types, oids, current, reason);
    NeverComplete(types, oid, oids, current);
    forall other | Stops(types, oid, other) ensures other == reason {
      var b, y :| StopsAt(types, oid, b, y, other);
      StopsOnce(types, oid, oids, current, reason, b, y, other);
    }
  }

  lemma CompletedNeverStops(types: Catalog, oid: Oid, oids: seq<Oid>)
    requires Complete(types, oid, oids)
    ensures forall reason :: !Stops(types, oid, reason)
  {
    hide StopsAt, Complete;
    forall reason | Stops(types, oid, reason) ensures false {
      var b, y :| StopsAt(types, oid, b, y, reason);
      StopDecides(types, oid, b, y, reason);
    }
  }

  lemma FollowOne(types: Catalog, oid: Oid, oids: seq<Oid>, current: Oid)
    requires Following(types, oid, oids, current) && Usable(types, current)
    ensures Linked(types, oid, oids + [current])
    ensures current in types
    ensures Links(types, oids + [current]) == Links(types, oids) + [LinkFor(types[current], KindAt(types, current))]
    ensures if Wraps(KindAt(types, current)) then Following(types, oid, oids + [current], NextAt(types, current))
            else Complete(types, oid, oids + [current])
  {
    LinkedSnoc(types, oid, oids, current);
    LinksSnoc(types, oids, current);
  }

  lemma LinkedSnoc(types: Catalog, oid: Oid, oids: seq<Oid>, current: Oid)
    requires Following(types, oid, oids, current) && Usable(types, current)
    ensures Linked(types, oid, oids + [current])
  {
    hide Usable, KindAt, NextAt, Wraps;
    var next := oids + [current];
    forall i | 0 < i < |next| ensures Follows(types, next, i) {
      if i < |oids| { assert Follows(types, oids, i); }
    }
  }

  lemma LinksSnoc(types: Catalog, oids: seq<Oid>, current: Oid)
    requires current in types
    ensures Links(types, oids + [current]) == Links(types, oids) + [LinkFor(types[current], KindAt(types, current))]
  {
  }

  /** Follows base and element types, refusing to visit a type twice. */
  method ResolveTypeChain(oid: Oid, types: Catalog) returns (result: Outcome<seq<Link>>)
    ensures result.Ok? <==> exists oids :: Complete(types, oid, oids) && ChainValid(Links(types, oids))
    ensures forall oids :: result.Ok? && Complete(types, oid, oids) ==> result.value == Links(types, oids)
    ensures result == Err(InvalidChain) <==> exists oids :: Complete(types, oid, oids) && !ChainValid(Links(types, oids))
    ensures forall reason :: reason != InvalidChain ==> (result == Err(reason) <==> Stops(types, oid, reason))
  {
    hide Linked, Complete, Following, Links, ChainValid, OutputSupported, Usable, Stops, StopsAt;
    var visited: set<Oid> := {};
    var chain: seq<Link> := [];
    var current := oid;
    ghost var oids: seq<Oid> := [];
    StartFollowing(types, oid);
    while true
      invariant Following(types, oid, oids, current) && chain == Links(types, oids) && Distinct(oids)
      invariant visited == (set o | o in oids) && visited <= types.Keys
      decreases types.Keys - visited
    {
      UsableMeans(types, current);
      if current !in types || current in visited {
        Stop(types, oid, oids, current, MissingOrRecursive);
        return Err(MissingOrRecursive);
      }
      var t := types[current];
      visited := visited + {current};
      var kind := KindOf(t);
      if kind.Err? {
        Stop(types, oid, oids, current, UnsupportedType);
        return Err(UnsupportedType);
      }
      if !OutputSupported(types, t, kind.value) {
        Stop(types, oid, oids, current, UnsupportedOutput);
        return Err(UnsupportedOutput);
      }
      FollowOne(types, oid, oids, current);
      chain := chain + [LinkFor(t, kind.value)];
      oids := oids + [current];
      if !Wraps(kind.value) { break; }
      current := Below(t, kind.value);
    }
    CompletedNeverStops(types, oid, oids);
    forall other | Complete(types, oid, other) ensures other == oids {
      CompleteUnique(types, oid, other, oids);
    }
    result := if ChainValid(chain) then Ok(chain) else Err(InvalidChain);
  }

  lemma Stop(types: Catalog, oid: Oid, oids: seq<Oid>, current: Oid, reason: Reason)
    requires Following(types, oid, oids, current) && Distinct(oids) && Obstructed(types, oids, current, reason)
    ensures forall other :: Stops(types, oid, other) <==> other == reason
    ensures forall other :: !Complete(types, oid, other)
  {
    StopDecides(types, oid, oids, current, reason);
  }

  lemma StartFollowing(types: Catalog, oid: Oid)
    ensures Following(types, oid, [], oid) && Links(types, []) == []
  {
  }

  lemma UsableMeans(types: Catalog, oid: Oid)
    ensures Usable(types, oid) <==>
      oid in types && KindOf(types[oid]).Ok? && OutputSupported(types, types[oid], KindAt(types, oid))
  {
  }

  /** If the next type is unusable or was already visited, the run can never be completed. */
  lemma NeverComplete(types: Catalog, oid: Oid, oids: seq<Oid>, current: Oid)
    requires Following(types, oid, oids, current)
    requires !Usable(types, current) || current in oids
    ensures forall other :: !Complete(types, oid, other)
  {
    hide OutputSupported, KindOf;
    forall other ensures !Complete(types, oid, other) {
      if Complete(types, oid, other) {
        var n := |oids|;
        NoLonger(types, oid, other, oids);
        if n > 0 {
          LinkedUnique(types, oid, oids, other, n - 1);
        }
        assert n < |other|;
        if n > 0 { OnlyLastEnds(types, oid, other, n - 1); }
        assert other[n] == current && Usable(types, current);
        var k :| 0 <= k < n && oids[k] == current;
        LinkedUnique(types, oid, oids, other, k);
        RunsRepeat(types, oid, other, k, n, |other| - 1);
        assert false;
      }
    }
  }

  /** A run that comes back to a type keeps wrapping: no later type on it can be final. */
  lemma {:induction false} RunsRepeat(types: Catalog, oid: Oid, oids: seq<Oid>, i: nat, j: nat, k: nat)
    requires Linked(types, oid, oids) && i < j <= k < |oids| && oids[i] == oids[j]
    ensures Wraps(KindAt(types, oids[k]))
    decreases |oids| - j
  {
    OnlyLastEnds(types, oid, oids, i);
    if j < k {
      OnlyLastEnds(types, oid, oids, j);
      RunsRepeat(types, oid, oids, i + 1, j + 1, k);
    }
  }

  // ---- One type, said of its catalog row ---------------------------------------------------------------

  ghost predicate IsDomainRow(t: CatalogType) { t.kind == 'd' }

  ghost predicate IsArrayRow(t: CatalogType) { t.kind != 'd' && t.category == 'A' && t.element != "0" }

  ghost predicate IsScalarRow(t: CatalogType, kind: char) { t.kind == kind && kind != 'd' && (t.category != 'A' || t.element == "0") }

  ghost predicate IsVectorRow(t: CatalogType) { IsScalarRow(t, 'b') && t.extension == "vector" && t.id.name == "vector" }

  ghost predicate IsBuiltinRow(t: CatalogType) {
    IsScalarRow(t, 'b') && !IsVectorRow(t) && t.id.schema == "pg_catalog" && BuiltinNamed(t.id.name)
  }

  /** Which kind a type has, by the codes of its row, and which type it wraps. */
  lemma KindMeans(types: Catalog, oid: Oid)
    requires oid in types
    ensures
      var t := types[oid];
      && (KindOf(t) == Ok(Domain) <==> IsDomainRow(t)) && (KindOf(t) == Ok(Array) <==> IsArrayRow(t))
      && (KindOf(t) == Ok(Enum) <==> IsScalarRow(t, 'e')) && (KindOf(t) == Ok(Vector) <==> IsVectorRow(t))
      && (KindOf(t) == Ok(Builtin) <==> IsBuiltinRow(t))
      && (IsDomainRow(t) ==> Wraps(KindAt(types, oid)) && NextAt(types, oid) == t.base)
      && (IsArrayRow(t) ==> Wraps(KindAt(types, oid)) && NextAt(types, oid) == t.element)
      && (!IsDomainRow(t) && !IsArrayRow(t) ==> !Wraps(KindAt(types, oid)))
  {
    OutputNames(types[oid].id.name);
    hide PlainNamed, SplitNamed, BUILTIN_OUTPUTS;
  }

  ghost predicate PrintsAsItsKind(types: Catalog, t: CatalogType) {
    || (IsDomainRow(t) && t.base in types && types[t.base].output == t.output)
    || (IsArrayRow(t) && t.output == Name("pg_catalog", "array_out"))
    || (IsScalarRow(t, 'e') && t.output == Name("pg_catalog", "enum_out"))
    || (IsVectorRow(t) && t.output == Name(t.id.schema, "vector_out"))
    || (IsBuiltinRow(t) && t.output.schema == "pg_catalog" && PrintsAsNamed(t.id.name, t.output.name))
  }

  ghost predicate PrintsAsNamed(n: string, output: string) {
    || (PlainNamed(n) && output == n + "out")
    || (SplitNamed(n) && output == n + "_out")
    || (n == "polygon" && output == "poly_out")
  }

  /** A type can be captured when its values are printed by the function that the kind of its row prescribes. */
  lemma UsableIff(types: Catalog, oid: Oid)
    ensures Usable(types, oid) <==> oid in types && PrintsAsItsKind(types, types[oid])
  {
    if oid in types {
      KindMeans(types, oid);
      OutputNames(types[oid].id.name);
      NotPolygon();
    }
    hide PlainNamed, SplitNamed, BUILTIN_OUTPUTS, KindOf;
  }

  lemma NotPolygon()
    ensures !PlainNamed("polygon") && !SplitNamed("polygon")
    ensures forall n :: !(PlainNamed(n) && SplitNamed(n))
  {
  }

  ghost predicate NoLabelTwice(labels: seq<string>) { forall i, j :: 0 <= i < j < |labels| ==> labels[i] != labels[j] }

  /** The checks on a finished chain, written out. */
  lemma ChainValidIff(chain: seq<Link>)
    ensures ChainValid(chain) <==>
      && chain != []
      && (forall i, j :: 0 <= i < j < |chain| ==> chain[i].id != chain[j].id)
      && (forall i :: 0 <= i < |chain| ==> (chain[i].kind in {Domain, Array} <==> i < |chain| - 1))
      && var last := chain[|chain| - 1];
         && (last.kind == Builtin ==> last.id.schema == "pg_catalog" && BuiltinNamed(last.id.name))
         && (last.kind == Enum ==> last.labels != [] && NoLabelTwice(last.labels))
         && (last.kind == Vector ==> last.id.name == "vector")
  {
    hide PlainNamed, SplitNamed, BUILTIN_OUTPUTS;
    if chain != [] { OutputNames(chain[|chain| - 1].id.name); }
  }

  // ---- What an accepted chain guarantees -------------------------------------------------------------

  /** A completed run visits every type at most once, so it is no longer than the catalog. */
  lemma CompleteIsShort(types: Catalog, oid: Oid, oids: seq<Oid>)
    requires Complete(types, oid, oids)
    ensures Distinct(oids) && |oids| <= |types|
  {
    hide KindOf, OutputSupported;
    forall i, j | 0 <= i < j < |oids| ensures oids[i] != oids[j] {
      if oids[i] == oids[j] {
        RunsRepeat(types, oid, oids, i, j, |oids| - 1);
        assert false;
      }
    }
    assert forall i :: 0 <= i < |oids| ==> Usable(types, oids[i]);
    DistinctWithin(oids, types.Keys);
    assert |types.Keys| == |types|;
  }

  lemma {:induction false} DistinctWithin(s: seq<Oid>, u: set<Oid>)
    requires Distinct(s) && forall i :: 0 <= i < |s| ==> s[i] in u
    ensures |s| <= |u|
    decreases |s|
  {
    if s != [] {
      var n := |s| - 1;
      DistinctWithin(s[..n], u - {s[n]});
    }
  }

  /** Every domain on the way down prints its values like the first type below it that is no domain. */
  lemma {:induction false} DomainsShareOutput(types: Catalog, oid: Oid, oids: seq<Oid>, i: nat, j: nat)
    requires Complete(types, oid, oids) && i <= j < |oids|
    requires forall k :: i <= k < j ==> KindAt(types, oids[k]) == Domain
    ensures types[oids[i]].output == types[oids[j]].output
    decreases j - i
  {
    if i < j {
      assert KindAt(types, oids[i]) == Domain;
      OnlyLastEnds(types, oid, oids, i);
      DomainsShareOutput(types, oid, oids, i + 1, j);
    }
  }

  /**
   * Of all the checks on a finished chain only two can still fail after resolution: two
   * links with the same name, and a final enum whose labels are missing or repeated.
   */
  lemma ResolvedChainValidIff(types: Catalog, oid: Oid, oids: seq<Oid>)
    requires Complete(types, oid, oids)
    ensures ChainValid(Links(types, oids)) <==>
      && DistinctNames(Links(types, oids))
      && var last := Links(types, oids)[|oids| - 1]; last.kind == Enum ==> last.labels != [] && Distinct(last.labels)
  {
    var chain := Links(types, oids);
    var n := |chain| - 1;
    forall i | 0 <= i < n ensures Wraps(chain[i].kind) && LinkValid(chain[i]) {
      OnlyLastEnds(types, oid, oids, i);
    }
    assert LinkValid(chain[n]) <==> (chain[n].kind == Enum ==> chain[n].labels != [] && Distinct(chain[n].labels)) by {
      assert Usable(types, oids[n]);
    }
  }
}
