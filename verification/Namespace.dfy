/** Whose schema an asset id names: `deriveNamespace` of `ui/lib/asset-catalog.ts`, and the list of
    schemas it searches. */
module Namespace {
  import opened Text
  import opened Lists
  import opened Sorting

  const TYPE_PREFIXES: seq<string> := ["metric_", "note_", "term_", "join_", "neg_", "tbl_", "fs_"]

  /** The id without the first type prefix it starts with. */
  function StripType(id: string, prefixes: seq<string>): string {
    if prefixes == [] then id
    else if StartsWith(id, prefixes[0]) then id[|prefixes[0]|..]
    else StripType(id, prefixes[1..])
  }

  predicate NamesSchema(rest: string, schema: string) {
    rest == schema || StartsWith(rest, schema + "_")
  }

  function FirstNamed(rest: string, schemas: seq<string>): Option<string> {
    if schemas == [] then None
    else if NamesSchema(rest, schemas[0]) then Some(schemas[0])
    else FirstNamed(rest, schemas[1..])
  }

  function Derived(id: string, schemas: seq<string>): Option<string> {
    FirstNamed(StripType(id, TYPE_PREFIXES), schemas)
  }

  method DeriveNamespace(id: string, schemasLongestFirst: seq<string>) returns (r: Option<string>)
    ensures r == Derived(id, schemasLongestFirst)
    ensures var rest := StripType(id, TYPE_PREFIXES);
            match r
            case None => forall s :: s in schemasLongestFirst ==> !NamesSchema(rest, s)
            case Some(schema) => FirstMatch(rest, schemasLongestFirst, schema)
  {
    var rest := StripPrefix(id);
    for i := 0 to |schemasLongestFirst|
      invariant FirstNamed(rest, schemasLongestFirst[i..]) == FirstNamed(rest, schemasLongestFirst)
      invariant forall j :: 0 <= j < i ==> !NamesSchema(rest, schemasLongestFirst[j])
    {
      var schema := schemasLongestFirst[i];
      if NamesSchema(rest, schema) {
        return Some(schema);
      }
    }
    return None;
  }

  method StripPrefix(id: string) returns (rest: string)
    ensures rest == StripType(id, TYPE_PREFIXES)
  {
    rest := id;
    for i := 0 to |TYPE_PREFIXES|
      invariant rest == id
      invariant StripType(id, TYPE_PREFIXES[i..]) == StripType(id, TYPE_PREFIXES)
    {
      assert TYPE_PREFIXES[i..][0] == TYPE_PREFIXES[i] && TYPE_PREFIXES[i..][1..] == TYPE_PREFIXES[i + 1..];
      if StartsWith(id, TYPE_PREFIXES[i]) {
        return id[|TYPE_PREFIXES[i]|..];
      }
    }
  }

  /** Either no listed prefix fits and the id stands, or the first that fits is cut off it, once. */
  lemma {:induction false} StripTypeIs(id: string, prefixes: seq<string>)
    ensures || (StripType(id, prefixes) == id && forall p :: p in prefixes ==> !StartsWith(id, p))
            || (exists i :: 0 <= i < |prefixes| && StartsWith(id, prefixes[i])
                            && id == prefixes[i] + StripType(id, prefixes)
                            && forall j :: 0 <= j < i ==> !StartsWith(id, prefixes[j]))
  {
    if prefixes != [] && !StartsWith(id, prefixes[0]) {
      StripTypeIs(id, prefixes[1..]);
      assert prefixes == [prefixes[0]] + prefixes[1..];
      if i :| 0 <= i < |prefixes[1..]| && StartsWith(id, prefixes[1..][i])
              && id == prefixes[1..][i] + StripType(id, prefixes[1..])
              && forall j :: 0 <= j < i ==> !StartsWith(id, prefixes[1..][j]) {
        assert prefixes[i + 1] == prefixes[1..][i];
        forall j | 0 <= j < i + 1 ensures !StartsWith(id, prefixes[j]) {
          if j > 0 { assert prefixes[j] == prefixes[1..][j - 1]; }
        }
      }
    } else if prefixes != [] {
      assert id == prefixes[0] + id[|prefixes[0]|..];
    }
  }

  ghost predicate FirstMatch(rest: string, schemas: seq<string>, schema: string) {
    exists i :: 0 <= i < |schemas| && schemas[i] == schema && NamesSchema(rest, schema)
                && forall j :: 0 <= j < i ==> !NamesSchema(rest, schemas[j])
  }

  lemma {:induction false} FirstNamedIs(rest: string, schemas: seq<string>)
    ensures match FirstNamed(rest, schemas)
            case None => forall s :: s in schemas ==> !NamesSchema(rest, s)
            case Some(schema) => FirstMatch(rest, schemas, schema)
  {
    if schemas != [] && !NamesSchema(rest, schemas[0]) {
      FirstNamedIs(rest, schemas[1..]);
      assert schemas == [schemas[0]] + schemas[1..];
      if schema :| FirstNamed(rest, schemas) == Some(schema) {
        var i :| 0 <= i < |schemas[1..]| && schemas[1..][i] == schema
                 && forall j :: 0 <= j < i ==> !NamesSchema(rest, schemas[1..][j]);
        assert schemas[i + 1] == schema;
        forall j | 0 <= j < i + 1 ensures !NamesSchema(rest, schemas[j]) {
          if j > 0 { assert schemas[j] == schemas[1..][j - 1]; }
        }
      }
    }
  }

  // ---- the schemas of a table catalog, longest first ----------------------------------------------

  /** `Array.from(new Set(...))`. */
  function Unique(names: seq<string>): seq<string> {
    if names == [] then []
    else
      var n := |names| - 1;
      var before := Unique(names[..n]);
      if names[n] in before then before else before + [names[n]]
  }

  predicate LongerFirst(localeLe: (string, string) -> bool, a: string, b: string) {
    CodeUnits(a) > CodeUnits(b) || (CodeUnits(a) == CodeUnits(b) && localeLe(a, b))
  }

  function LengthOrder(localeLe: (string, string) -> bool): (string, string) -> bool {
    (a, b) => LongerFirst(localeLe, a, b)
  }

  function SchemasByLengthDesc(namespaces: seq<string>, localeLe: (string, string) -> bool): seq<string> {
    Sort(Unique(namespaces), LengthOrder(localeLe))
  }

  lemma {:induction false} UniqueIs(names: seq<string>)
    ensures Distinct(Unique(names)) && forall s :: s in Unique(names) <==> s in names
  {
    if names != [] {
      var n := |names| - 1;
      UniqueIs(names[..n]);
      assert names == names[..n] + [names[n]];
    }
  }

  /** The list holds every schema once, and none before a longer one. */
  lemma SchemasAre(namespaces: seq<string>, localeLe: (string, string) -> bool)
    requires Orders(localeLe)
    ensures var schemas := SchemasByLengthDesc(namespaces, localeLe);
            && multiset(schemas) == multiset(Unique(namespaces))
            && (forall s :: s in schemas <==> s in namespaces)
            && (forall a, b :: 0 <= a < b < |schemas| ==> CodeUnits(schemas[a]) >= CodeUnits(schemas[b]))
            && (forall a, b :: 0 <= a < b < |schemas| && CodeUnits(schemas[a]) == CodeUnits(schemas[b]) ==>
                  localeLe(schemas[a], schemas[b]))
  {
    hide CodeUnits, Unique;
    var le := LengthOrder(localeLe);
    forall a, b, c | le(a, b) && le(b, c) ensures le(a, c) {
      assert localeLe(a, b) && localeLe(b, c) ==> localeLe(a, c);
    }
    forall a, b ensures le(a, b) || le(b, a) {
      assert localeLe(a, b) || localeLe(b, a);
    }
    UniqueIs(namespaces);
    SortSorts(Unique(namespaces), le);
    var schemas := SchemasByLengthDesc(namespaces, localeLe);
    forall s ensures s in schemas <==> s in namespaces {
      assert s in multiset(schemas) <==> s in multiset(Unique(namespaces));
    }
    forall a, b | 0 <= a < b < |schemas|
      ensures CodeUnits(schemas[a]) >= CodeUnits(schemas[b])
      ensures CodeUnits(schemas[a]) == CodeUnits(schemas[b]) ==> localeLe(schemas[a], schemas[b])
    {
      assert le(schemas[a], schemas[b]);
    }
  }

  // ---- the longest match -----------------------------------------------------------------------------

  lemma IsPrefixOf(rest: string, schema: string)
    requires NamesSchema(rest, schema)
    ensures |schema| <= |rest| && rest[..|schema|] == schema
  {
    if rest == schema {
      assert rest[..|schema|] == schema;
    } else {
      assert rest[..|schema|] == (schema + "_")[..|schema|] == schema;
    }
  }

  lemma {:induction false} LongerHasMoreUnits(s: string, m: nat, n: nat)
    requires m < n <= |s|
    ensures CodeUnits(s[..m]) < CodeUnits(s[..n])
  {
    if m == 0 {
      CodeUnitsCoverLength(s[..n]);
    } else {
      assert s[..m][1..] == s[1..][..m - 1] && s[..n][1..] == s[1..][..n - 1];
      LongerHasMoreUnits(s[1..], m - 1, n - 1);
    }
  }

  /** Longest first makes the match unique: no shorter schema name can shadow a longer one. */
  lemma LongestFirstIsUnique(rest: string, schemas: seq<string>, schema: string, s: string)
    requires forall a, b :: 0 <= a < b < |schemas| ==> CodeUnits(schemas[a]) >= CodeUnits(schemas[b])
    requires FirstMatch(rest, schemas, schema)
    requires s in schemas && NamesSchema(rest, s)
    ensures |s| < |schema| || s == schema
  {
    hide CodeUnits;
    var i :| 0 <= i < |schemas| && schemas[i] == schema && NamesSchema(rest, schema)
             && forall j :: 0 <= j < i ==> !NamesSchema(rest, schemas[j]);
    var k :| 0 <= k < |schemas| && schemas[k] == s;
    assert i <= k;
    IsPrefixOf(rest, s);
    IsPrefixOf(rest, schema);
    if |schema| < |s| {
      LongerHasMoreUnits(rest, |schema|, |s|);
    }
  }

  /** `namespace` is the one longest of the names that the id names, or none if it names none. */
  ghost predicate IsNamespace(id: string, names: seq<string>, namespace: Option<string>) {
    var rest := StripType(id, TYPE_PREFIXES);
    match namespace
    case None => forall s :: s in names ==> !NamesSchema(rest, s)
    case Some(schema) =>
      schema in names && NamesSchema(rest, schema)
      && forall s :: s in names && NamesSchema(rest, s) ==> |s| < |schema| || s == schema
  }

  /** An id names a schema by being it, or by going on from it with an underscore. */
  lemma NamesIs(rest: string, schema: string)
    ensures NamesSchema(rest, schema) <==> rest == schema || exists tail :: rest == schema + "_" + tail
  {
    if StartsWith(rest, schema + "_") {
      var tail := rest[|schema| + 1..];
      assert rest == schema + "_" + tail;
    }
    if tail :| rest == schema + "_" + tail {
      assert rest[..|schema| + 1] == schema + "_";
    }
  }

  /** End to end: what is derived over the schemas of the tables is the longest one the id names. */
  lemma DerivedIsLongest(id: string, names: seq<string>, localeLe: (string, string) -> bool)
    requires Orders(localeLe)
    ensures IsNamespace(id, names, Derived(id, SchemasByLengthDesc(names, localeLe)))
  {
    hide CodeUnits, SchemasByLengthDesc, NamesSchema, StripType;
    var schemas, rest := SchemasByLengthDesc(names, localeLe), StripType(id, TYPE_PREFIXES);
    SchemasAre(names, localeLe);
    FirstNamedIs(rest, schemas);
    if schema :| FirstNamed(rest, schemas) == Some(schema) {
      forall s | s in names && NamesSchema(rest, s) ensures |s| < |schema| || s == schema {
        LongestFirstIsUnique(rest, schemas, schema, s);
      }
    }
  }
}
