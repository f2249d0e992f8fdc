/** Append-only compatibility of operation catalogs within a major version. */
module Catalog {
  import opened Wrappers
  import opened WireSchema
  import opened CatalogValues
  import opened CatalogParams
  import Versions

  type Operations = map<string, Fields>

  // ----- operations by name -----

  predicate HasName(op: Json) {
    op.Obj? && "name" in op.members && op.members["name"].Str?
  }

  function NameOf(op: Json): string
    requires HasName(op)
  {
    op.members["name"].s
  }

  /** Operations by name, the first of each name. */
  function Indexed(items: seq<Json>): Operations {
    if items == [] then map[]
    else
      var before, last := Indexed(items[..|items| - 1]), items[|items| - 1];
      if HasName(last) && NameOf(last) !in before then before[NameOf(last) := last.members] else before
  }

  predicate AllNamed(items: seq<Json>) {
    && (forall i :: 0 <= i < |items| ==> HasName(items[i]))
    && (forall i, j :: 0 <= i < j < |items| ==> NameOf(items[i]) != NameOf(items[j]))
  }

  predicate OperationsOk(catalog: Fields) {
    "operations" in catalog && catalog["operations"].Arr? && AllNamed(catalog["operations"].items)
  }

  function OperationsOf(catalog: Fields): Operations {
    if "operations" in catalog && catalog["operations"].Arr? then Indexed(catalog["operations"].items) else map[]
  }

  lemma {:induction false} IndexedName(items: seq<Json>, name: string)
    ensures name in Indexed(items) <==> exists i :: 0 <= i < |items| && HasName(items[i]) && NameOf(items[i]) == name
    ensures name in Indexed(items) ==> Obj(Indexed(items)[name]) in items && HasName(Obj(Indexed(items)[name]))
  {
    if items != [] {
      var front := items[..|items| - 1];
      IndexedName(front, name);
      assert forall i :: 0 <= i < |front| ==> front[i] == items[i];
    }
  }

  /** In a catalog whose names are sound, the index holds every operation of the list. */
  lemma {:induction false} IndexedAll(items: seq<Json>)
    requires AllNamed(items)
    ensures forall i :: 0 <= i < |items| ==>
      NameOf(items[i]) in Indexed(items) && Indexed(items)[NameOf(items[i])] == items[i].members
  {
    if items != [] {
      var front, last := items[..|items| - 1], items[|items| - 1];
      assert forall i :: 0 <= i < |front| ==> front[i] == items[i];
      IndexedAll(front);
      IndexedName(front, NameOf(last));
    }
  }

  method CatalogOperations(catalog: Fields, errors: seq<CatalogError>)
    returns (indexed: Operations, grown: seq<CatalogError>)
    ensures indexed == OperationsOf(catalog)
    ensures errors <= grown && (grown == errors <==> OperationsOk(catalog))
  {
    grown, indexed := errors, map[];
    if "operations" !in catalog || !catalog["operations"].Arr? {
      grown := errors + [CatalogError([Field("operations")], NotAnArray)];
      return;
    }
    var items := catalog["operations"].items;
    var i := 0;
    while i < |items|
      invariant 0 <= i <= |items|
      invariant indexed == Indexed(items[..i])
      invariant errors <= grown && (grown == errors <==> AllNamed(items[..i]))
    {
      assert items[..i + 1][..i] == items[..i];
      IndexedStep(items, i);
      var op := items[i];
      if !HasName(op) {
        grown := grown + [CatalogError([Field("operations"), Index(i)], Unnamed)];
      } else if NameOf(op) in indexed {
        grown := grown + [CatalogError([Field("operations"), Index(i)], DuplicateName)];
      } else {
        indexed := indexed[NameOf(op) := op.members];
      }
      i := i + 1;
    }
    assert items[..i] == items;
  }

  lemma IndexedStep(items: seq<Json>, i: nat)
    requires i < |items|
    ensures AllNamed(items[..i + 1]) <==>
      AllNamed(items[..i]) && HasName(items[i]) && NameOf(items[i]) !in Indexed(items[..i])
  {
    var front, more := items[..i], items[..i + 1];
    assert more == front + [items[i]];
    if HasName(items[i]) {
      IndexedName(front, NameOf(items[i]));
    }
    if AllNamed(more) {
      assert forall k :: 0 <= k < i ==> front[k] == more[k];
    }
  }

  // ----- projections -----

  datatype Projection = CliPath(path: string) | McpTool(tool: string) | McpResource(resource: string)

  function TextIn(fields: Fields, key: string): Option<string> {
    if key in fields && fields[key].Str? then Some(fields[key].s) else None
  }

  function AliasPaths(aliases: seq<Json>): seq<Projection> {
    if aliases == [] then []
    else
      var head := if aliases[0].Obj? then TextIn(aliases[0].members, "path") else None;
      (if head.Some? then [CliPath(head.value)] else []) + AliasPaths(aliases[1..])
  }

  function CliProjections(cli: Fields): seq<Projection> {
    var path := TextIn(cli, "path");
    (if path.Some? then [CliPath(path.value)] else [])
    + (if "aliases" in cli && cli["aliases"].Arr? then AliasPaths(cli["aliases"].items) else [])
  }

  function McpProjections(mcp: Fields): seq<Projection> {
    var tool, resource := TextIn(mcp, "tool"), TextIn(mcp, "resource");
    (if tool.Some? then [McpTool(tool.value)] else []) + (if resource.Some? then [McpResource(resource.value)] else [])
  }

  /** The command paths, tools and resources an operation answers to. */
  function Projections(op: Fields): seq<Projection> {
    if "surfaces" !in op || !op["surfaces"].Obj? then []
    else
      var surfaces := op["surfaces"].members;
      (if "cli" in surfaces && surfaces["cli"].Obj? then CliProjections(surfaces["cli"].members) else [])
      + (if "mcp" in surfaces && surfaces["mcp"].Obj? then McpProjections(surfaces["mcp"].members) else [])
  }

  predicate NoRepeat(ps: seq<Projection>) {
    forall i, j :: 0 <= i < j < |ps| ==> ps[i] != ps[j]
  }

  predicate Apart(x: seq<Projection>, y: seq<Projection>) {
    forall p :: p in x ==> p !in y
  }

  /** No two places of the named operations answer to the same projection. */
  ghost predicate Unambiguous(ops: Operations, names: set<string>)
    requires names <= ops.Keys
  {
    && (forall n :: n in names ==> NoRepeat(Projections(ops[n])))
    && (forall m, n :: m in names && n in names && m != n ==> Apart(Projections(ops[m]), Projections(ops[n])))
  }

  method ProjectionUniqueness(ops: Operations, errors: seq<CatalogError>) returns (grown: seq<CatalogError>)
    ensures errors <= grown && (grown == errors <==> Unambiguous(ops, ops.Keys))
  {
    hide Projections;
    grown := errors;
    var todo, seen := ops.Keys, {};
    while todo != {}
      invariant todo <= ops.Keys && errors <= grown
      invariant forall p :: p in seen <==> exists n :: n in ops.Keys - todo && p in Projections(ops[n])
      invariant grown == errors <==> Unambiguous(ops, ops.Keys - todo)
      decreases |todo|
    {
      var name :| name in todo;
      var more, all := Remember(name, Projections(ops[name]), seen);
      UnambiguousStep(ops, todo, name, seen);
      assert ops.Keys - (todo - {name}) == (ops.Keys - todo) + {name};
      grown, seen, todo := grown + more, all, todo - {name};
    }
    assert ops.Keys - todo == ops.Keys;
  }

  /** Reports the projections that were seen before or come twice, and sees them all. */
  method Remember(name: string, ps: seq<Projection>, before: set<Projection>)
    returns (errors: seq<CatalogError>, seen: set<Projection>)
    ensures seen == before + (set p | p in ps)
    ensures errors == [] <==> NoRepeat(ps) && forall p :: p in ps ==> p !in before
  {
    errors, seen := [], before;
    var i := 0;
    while i < |ps|
      invariant 0 <= i <= |ps|
      invariant seen == before + (set p | p in ps[..i])
      invariant errors == [] <==> NoRepeat(ps[..i]) && forall p :: p in ps[..i] ==> p !in before
    {
      assert ps[..i + 1] == ps[..i] + [ps[i]];
      NoRepeatStep(ps[..i], ps[i]);
      if ps[i] in seen {
        errors := errors + [CatalogError([Field("operations"), Keyed(name), Index(i)], DuplicateProjection)];
      } else {
        seen := seen + {ps[i]};
      }
      i := i + 1;
    }
    assert ps[..i] == ps;
  }

  lemma NoRepeatStep(ps: seq<Projection>, p: Projection)
    ensures NoRepeat(ps + [p]) <==> NoRepeat(ps) && p !in ps
  {
    var more := ps + [p];
    assert forall i :: 0 <= i < |ps| ==> more[i] == ps[i];
    if NoRepeat(more) {
      assert forall i :: 0 <= i < |ps| ==> more[i] != more[|ps|];
    }
  }

  lemma UnambiguousStep(ops: Operations, todo: set<string>, name: string, seen: set<Projection>)
    requires name in todo && todo <= ops.Keys
    requires forall p :: p in seen <==> exists n :: n in ops.Keys - todo && p in Projections(ops[n])
    ensures Unambiguous(ops, (ops.Keys - todo) + {name}) <==>
      Unambiguous(ops, ops.Keys - todo) && NoRepeat(Projections(ops[name]))
      && forall p :: p in Projections(ops[name]) ==> p !in seen
  {
    hide Projections, NoRepeat;
    var past := ops.Keys - todo;
    var ps := Projections(ops[name]);
    if Unambiguous(ops, past + {name}) {
      forall p | p in ps ensures p !in seen {
        assert forall n :: n in past ==> Apart(Projections(ops[n]), ps);
      }
    }
    if Unambiguous(ops, past) && NoRepeat(ps) && forall p :: p in ps ==> p !in seen {
      forall n | n in past ensures Apart(Projections(ops[n]), ps) && Apart(ps, Projections(ops[n])) {}
    }
  }

  // ----- published command groups -----

  predicate PathsHashable(value: Json) {
    value.Arr? ==> forall i :: 0 <= i < |value.items| && value.items[i].Obj? && "path" in value.items[i].members ==>
      Hashable(value.items[i].members["path"])
  }

  /** The path a row goes under; a missing path counts as null. */
  function RowKey(row: Json): Json {
    if row.Obj? then GetOr(row.members, "path", Null) else Null
  }

  /** The objects of a list by their paths, the last of each path. */
  function RowsOf(items: seq<Json>): map<Json, Json> {
    if items == [] then map[]
    else
      var front, last := RowsOf(items[..|items| - 1]), items[|items| - 1];
      if last.Obj? then front[RowKey(last) := last] else front
  }

  /** The rows, when each element is an object with a text path of its own. */
  function KeyedRows(value: Json): Option<map<Json, Json>> {
    if !value.Arr? then None
    else
      var rows := RowsOf(value.items);
      if (forall path :: path in rows ==> path.Str?) && |rows| == |value.items| then Some(rows) else None
  }

  predicate HasPath(row: Json) {
    row.Obj? && "path" in row.members && row.members["path"].Str?
  }

  predicate AllPathed(value: Json) {
    && value.Arr?
    && (forall i :: 0 <= i < |value.items| ==> HasPath(value.items[i]))
    && (forall i, j :: 0 <= i < j < |value.items| ==> value.items[i].members["path"] != value.items[j].members["path"])
  }

  /** Published groups may be joined by others, in any position, and stay as they are. */
  ghost predicate ParentsKept(before: Json, after: Json) {
    if AllPathed(before) && AllPathed(after) then forall row :: row in before.items ==> row in after.items
    else before == after
  }

  ghost predicate FieldKept(key: string, before: Json, after: Json) {
    if key == "cli_parents" then PathsHashable(before) && PathsHashable(after) && ParentsKept(before, after)
    else before == after
  }

  lemma {:induction false} RowsCount(items: seq<Json>, path: Json)
    ensures |RowsOf(items)| <= |items|
    ensures path in RowsOf(items) <==> exists i :: 0 <= i < |items| && items[i].Obj? && RowKey(items[i]) == path
    ensures path in RowsOf(items) ==>
      RowsOf(items)[path] in items && RowsOf(items)[path].Obj? && RowKey(RowsOf(items)[path]) == path
  {
    hide RowKey;
    if items != [] {
      var front, last := items[..|items| - 1], items[|items| - 1];
      RowsCount(front, path);
      assert items == front + [last];
      if last.Obj? {
        RowsStep(RowsOf(front), RowKey(last), last);
      }
    }
  }

  lemma RowsStep(rows: map<Json, Json>, path: Json, row: Json)
    ensures |rows[path := row]| == if path in rows then |rows| else |rows| + 1
  {
    assert rows[path := row].Keys == rows.Keys + {path};
    assert path in rows ==> rows.Keys + {path} == rows.Keys;
  }

  predicate RowsApart(items: seq<Json>) {
    && (forall i :: 0 <= i < |items| ==> items[i].Obj?)
    && (forall i, j :: 0 <= i < j < |items| ==> RowKey(items[i]) != RowKey(items[j]))
  }

  lemma RowsApartStep(front: seq<Json>, last: Json)
    ensures RowsApart(front + [last]) <==>
      RowsApart(front) && last.Obj? && forall i :: 0 <= i < |front| ==> RowKey(front[i]) != RowKey(last)
  {
    hide RowKey;
    var items := front + [last];
    assert items[|front|] == last;
    assert forall i :: 0 <= i < |front| ==> items[i] == front[i];
    if RowsApart(items) {
      assert forall i :: 0 <= i < |front| ==> RowKey(items[i]) != RowKey(items[|front|]);
    }
  }

  /** A list has as many rows as elements exactly when its elements are objects with paths of their own. */
  lemma {:induction false} RowsFull(items: seq<Json>)
    ensures |RowsOf(items)| == |items| <==> RowsApart(items)
  {
    hide RowKey, RowsApart;
    if items == [] {
      assert RowsApart(items) by { EmptyApart(); }
    } else {
      var front, last := items[..|items| - 1], items[|items| - 1];
      assert items == front + [last];
      RowsFull(front);
      RowsCount(front, RowKey(last));
      RowsApartStep(front, last);
      if last.Obj? {
        RowsStep(RowsOf(front), RowKey(last), last);
      }
      if RowsApart(front) {
        ApartObjects(front);
      }
    }
  }

  lemma EmptyApart()
    ensures RowsApart([])
  {}

  lemma ApartObjects(items: seq<Json>)
    requires RowsApart(items)
    ensures forall i :: 0 <= i < |items| ==> items[i].Obj?
  {}

  /** Rows are found exactly for lists of objects with text paths of their own, and then they are the elements. */
  lemma RowsIffPathed(value: Json)
    ensures KeyedRows(value).Some? <==> AllPathed(value)
    ensures AllPathed(value) ==> value.Arr? && RowsAre(KeyedRows(value).value, value.items)
  {
    hide RowsOf, AllPathed, RowsApart, RowsAre;
    if value.Arr? {
      var rows, items := RowsOf(value.items), value.items;
      RowsFull(items);
      PathedIsApart(value);
      forall path | path in rows ensures RowsOf(items)[path] in items && RowsOf(items)[path].Obj? && RowKey(rows[path]) == path {
        RowsCount(items, path);
      }
      forall i | 0 <= i < |items| && items[i].Obj? ensures RowKey(items[i]) in rows {
        RowsCount(items, RowKey(items[i]));
      }
      if RowsApart(items) {
        ApartObjects(items);
        ApartRows(items, rows);
      }
      if AllPathed(value) {
        PathedKeys(value, rows);
      }
    } else {
      PathedIsApart(value);
    }
  }

  /** The rows hold exactly the elements, each under its own path. */
  ghost predicate RowsAre(rows: map<Json, Json>, items: seq<Json>) {
    && (forall row :: row in items ==> row.Obj? && RowKey(row) in rows && rows[RowKey(row)] == row)
    && (forall path :: path in rows ==> rows[path] in items && rows[path].Obj? && RowKey(rows[path]) == path)
  }

  lemma ApartRows(items: seq<Json>, rows: map<Json, Json>)
    requires RowsApart(items)
    requires forall i :: 0 <= i < |items| && items[i].Obj? ==> RowKey(items[i]) in rows
    requires forall path :: path in rows ==> rows[path] in items && rows[path].Obj? && RowKey(rows[path]) == path
    ensures RowsAre(rows, items)
  {
    hide RowKey;
    forall row | row in items ensures row.Obj? && RowKey(row) in rows && rows[RowKey(row)] == row {
      var i :| 0 <= i < |items| && items[i] == row;
      var found := rows[RowKey(row)];
      var j :| 0 <= j < |items| && items[j] == found;
      SameRow(items, i, j);
    }
  }

  lemma SameRow(items: seq<Json>, i: nat, j: nat)
    requires RowsApart(items) && i < |items| && j < |items| && RowKey(items[i]) == RowKey(items[j])
    ensures i == j
  {}

  lemma PathedIsApart(value: Json)
    ensures AllPathed(value) <==>
      value.Arr? && RowsApart(value.items) && forall i :: 0 <= i < |value.items| ==> RowKey(value.items[i]).Str?
  {
    if value.Arr? {
      forall i | 0 <= i < |value.items| ensures HasPath(value.items[i]) <==> value.items[i].Obj? && RowKey(value.items[i]).Str? {}
      if AllPathed(value) {
        assert forall i :: 0 <= i < |value.items| ==> HasPath(value.items[i]);
      }
    }
  }

  lemma PathedKeys(value: Json, rows: map<Json, Json>)
    requires AllPathed(value)
    requires forall path :: path in rows ==> rows[path] in value.items && rows[path].Obj? && RowKey(rows[path]) == path
    ensures forall path :: path in rows ==> path.Str?
  {
    forall path | path in rows ensures path.Str? {
      assert HasPath(rows[path]);
    }
  }

  /** Compares published groups by path; not handled when either side is not a list of uniquely pathed objects. */
  method CompareParents(before: Json, after: Json, errors: seq<CatalogError>)
    returns (handled: bool, grown: seq<CatalogError>)
    ensures handled <==> AllPathed(before) && AllPathed(after)
    ensures errors <= grown && (!handled ==> grown == errors)
    ensures handled ==> (grown == errors <==> ParentsKept(before, after))
  {
    hide AllPathed, KeyedRows, RowsAre, RowKey;
    RowsIffPathed(before);
    RowsIffPathed(after);
    var past, cur := KeyedRows(before), KeyedRows(after);
    handled, grown := past.Some? && cur.Some?, errors;
    if handled {
      grown := CompareRows(past.value, cur.value, errors);
      RowsIncluded(past.value, before.items, cur.value, after.items);
    }
  }

  lemma RowsIncluded(past: map<Json, Json>, before: seq<Json>, cur: map<Json, Json>, after: seq<Json>)
    requires RowsAre(past, before) && RowsAre(cur, after)
    ensures (forall path :: path in past ==> path in cur && past[path] == cur[path])
       <==> (forall row :: row in before ==> row in after)
  {
    hide RowKey;
    if forall path :: path in past ==> path in cur && past[path] == cur[path] {
      forall row | row in before ensures row in after {
        assert RowKey(row) in past;
      }
    }
  }

  method CompareRows(past: map<Json, Json>, cur: map<Json, Json>, errors: seq<CatalogError>)
    returns (grown: seq<CatalogError>)
    ensures errors <= grown
    ensures grown == errors <==> forall path :: path in past ==> path in cur && past[path] == cur[path]
  {
    hide IsFault;
    grown := errors;
    var todo := past.Keys;
    while todo != {}
      invariant todo <= past.Keys && errors <= grown
      invariant grown == errors <==> forall path :: path in past.Keys - todo ==> path in cur && past[path] == cur[path]
      decreases |todo|
    {
      var path :| path in todo;
      var at := [Field("cli_parents"), if path.Str? then Keyed(path.s) else Field("")];
      if path !in cur {
        grown := grown + [CatalogError(at, Removed)];
      } else {
        grown := CompareValue(past[path], cur[path], at, grown);
      }
      todo := todo - {path};
    }
  }

  // ----- the whole comparison -----

  /** The catalog's version, when it is a plain X.Y.Z without leading zeros. */
  function Semver(catalog: Fields): Option<Versions.Version> {
    if "catalog_version" !in catalog || !catalog["catalog_version"].Str? then None
    else
      var text := catalog["catalog_version"].s;
      var parts, version := Versions.ParseParts(text), Versions.Parse(text);
      if parts.Some? && parts.value.kind.Final? && Versions.PlainParts(parts.value) && version.Some?
      then Some(version.value) else None
  }

  predicate VersionKept(before: Fields, after: Fields) {
    && Semver(before).Some? && Semver(after).Some?
    && Semver(before).value.major == Semver(after).value.major
    && !Versions.Less(Semver(after).value, Semver(before).value)
  }

  function OtherKeys(catalog: Fields): set<string> {
    catalog.Keys - {"operations", "catalog_version"}
  }

  predicate OperationKept(name: string, before: Fields, after: Fields, pushDraft: bool) {
    (name == "host.provision" && pushDraft)
    || (Strip(name, before).Some? && Strip(name, before) == Strip(name, after))
  }

  /** What an error-free comparison says. `pushDraft` is whether the one approved draft edit of
      host.provision applies. */
  ghost predicate Compatible(before: Fields, after: Fields, pushDraft: bool) {
    && OtherKeys(before) == OtherKeys(after)
    && (forall key :: key in OtherKeys(before) ==> FieldKept(key, before[key], after[key]))
    && VersionKept(before, after)
    && OperationsOk(before) && OperationsOk(after)
    && Unambiguous(OperationsOf(after), OperationsOf(after).Keys)
    && (forall name :: name in OperationsOf(before) ==>
          name in OperationsOf(after) && OperationKept(name, OperationsOf(before)[name], OperationsOf(after)[name], pushDraft))
  }

  lemma ParentsKeptTrans(a: Json, b: Json, c: Json)
    requires ParentsKept(a, b) && ParentsKept(b, c)
    ensures ParentsKept(a, c)
  {
    hide AllPathed;
  }

  lemma FieldKeptTrans(key: string, a: Json, b: Json, c: Json)
    requires FieldKept(key, a, b) && FieldKept(key, b, c)
    ensures FieldKept(key, a, c)
  {
    hide ParentsKept, PathsHashable;
    if key == "cli_parents" {
      ParentsKeptTrans(a, b, c);
    }
  }

  lemma VersionKeptTrans(a: Fields, b: Fields, c: Fields)
    requires VersionKept(a, b) && VersionKept(b, c)
    ensures VersionKept(a, c)
  {
    hide Semver, Versions.Less;
    var x, y, z := Semver(a).value, Semver(b).value, Semver(c).value;
    Versions.LessIsStrictTotal(z, x, y);
    Versions.LessIsStrictTotal(z, y, x);
    Versions.LessIsStrictTotal(y, z, x);
    Versions.LessIsStrictTotal(x, y, z);
  }

  /** Two error-free comparisons in a row make the direct comparison error-free, up to the draft edit. */
  lemma CompatibleTrans(a: Fields, b: Fields, c: Fields, first: bool, second: bool)
    requires Compatible(a, b, first) && Compatible(b, c, second)
    ensures Compatible(a, c, first || second)
  {
    hide FieldKept, VersionKept, OperationsOk, OperationsOf, Unambiguous, Strip;
    VersionKeptTrans(a, b, c);
    forall key | key in OtherKeys(a) ensures FieldKept(key, a[key], c[key]) {
      FieldKeptTrans(key, a[key], b[key], c[key]);
    }
  }

  ghost predicate Chain(catalogs: seq<Fields>, drafts: seq<bool>) {
    |drafts| + 1 == |catalogs|
    && forall i :: 0 <= i < |drafts| ==> Compatible(catalogs[i], catalogs[i + 1], drafts[i])
  }

  /** Along any chain of error-free comparisons the last catalog is compatible with the first. */
  lemma {:induction false} ChainCompatible(catalogs: seq<Fields>, drafts: seq<bool>)
    requires Chain(catalogs, drafts) && |drafts| > 0
    ensures Compatible(catalogs[0], catalogs[|drafts|], true in drafts)
    decreases |drafts|
  {
    hide Compatible;
    var n := |drafts| - 1;
    assert Compatible(catalogs[n], catalogs[n + 1], drafts[n]);
    if n > 0 {
      var fewer := drafts[..n];
      assert Chain(catalogs[..n + 1], fewer);
      ChainCompatible(catalogs[..n + 1], fewer);
      CompatibleTrans(catalogs[0], catalogs[n], catalogs[n + 1], true in fewer, drafts[n]);
      assert drafts == fewer + [drafts[n]];
    } else {
      assert drafts == [drafts[0]];
    }
  }

  /** Two operations of one name that are equal once approved optional parameters are dropped. */
  predicate SameStripped(op: Json, later: Json) {
    && HasName(op) && HasName(later) && NameOf(op) == NameOf(later)
    && Strip(NameOf(op), op.members).Some? && Strip(NameOf(op), op.members) == Strip(NameOf(op), later.members)
  }

  /** Every published operation survives the chain, with the same parameters in the same order once approved
      optional ones are dropped, and the version never moves back. */
  lemma ChainKeepsStripped(catalogs: seq<Fields>, drafts: seq<bool>, op: Json)
    requires Chain(catalogs, drafts) && |drafts| > 0
    requires "operations" in catalogs[0] && catalogs[0]["operations"].Arr? && op in catalogs[0]["operations"].items
    requires HasName(op) && NameOf(op) != "host.provision"
    ensures VersionKept(catalogs[0], catalogs[|drafts|])
    ensures OperationsOk(catalogs[|drafts|])
    ensures exists later :: later in catalogs[|drafts|]["operations"].items && SameStripped(op, later)
  {
    hide Strip, VersionKept, FieldKept, Unambiguous, AllNamed, Indexed;
    var first, last := catalogs[0], catalogs[|drafts|];
    ChainCompatible(catalogs, drafts);
    IndexedAll(first["operations"].items);
    assert OperationsOf(first)[NameOf(op)] == op.members;
    IndexedName(last["operations"].items, NameOf(op));
    var later := Obj(OperationsOf(last)[NameOf(op)]);
    LaterName(last["operations"].items, NameOf(op));
    assert later in last["operations"].items;
  }

  lemma {:induction false} LaterName(items: seq<Json>, name: string)
    requires name in Indexed(items)
    ensures HasName(Obj(Indexed(items)[name])) && NameOf(Obj(Indexed(items)[name])) == name
  {
    var front, last := items[..|items| - 1], items[|items| - 1];
    if name in Indexed(front) {
      LaterName(front, name);
    }
  }

  // ----- the comparison as it runs -----

  method CompareFields(before: Fields, after: Fields, errors: seq<CatalogError>)
    returns (ok: bool, grown: seq<CatalogError>)
    ensures errors <= grown
    ensures ok && grown == errors <==>
      OtherKeys(before) == OtherKeys(after)
      && (forall key :: key in OtherKeys(before) ==> FieldKept(key, before[key], after[key]))
  {
    hide PathsHashable, ParentsKept, AllPathed, IsFault;
    var past, cur := OtherKeys(before), OtherKeys(after);
    ok, grown := true, errors;
    grown := ReportKeys(past - cur, Removed, grown);
    grown := ReportKeys(cur - past, Added, grown);
    assert grown == errors <==> past == cur;
    var todo := past * cur;
    while todo != {}
      invariant todo <= past * cur && errors <= grown
      invariant ok && grown == errors <==>
        past == cur && forall key :: key in past * cur - todo ==> FieldKept(key, before[key], after[key])
      decreases |todo|
    {
      var key :| key in todo;
      var x, y := before[key], after[key];
      if key == "cli_parents" {
        if PathsHashable(x) && PathsHashable(y) {
          var handled, more := CompareParents(x, y, grown);
          grown := more;
          if !handled {
            grown := CompareValue(x, y, [Field(key)], grown);
            UnpathedKept(x, y);
          }
        } else {
          ok := false;
        }
      } else {
        grown := CompareValue(x, y, [Field(key)], grown);
      }
      todo := todo - {key};
    }
  }

  lemma UnpathedKept(x: Json, y: Json)
    requires !(AllPathed(x) && AllPathed(y))
    ensures ParentsKept(x, y) <==> x == y
  {}

  method ReportKeys(names: set<string>, fault: Fault, errors: seq<CatalogError>) returns (grown: seq<CatalogError>)
    ensures errors <= grown && (grown == errors <==> names == {})
    ensures |grown| == |errors| + |names|
  {
    grown := errors;
    var todo := names;
    while todo != {}
      invariant todo <= names && errors <= grown && |grown| == |errors| + |names| - |todo|
      decreases |todo|
    {
      var key :| key in todo;
      grown, todo := grown + [CatalogError([Field(key)], fault)], todo - {key};
    }
  }

  method CompareOperations(before: Operations, after: Operations, pushDraft: bool, errors: seq<CatalogError>)
    returns (ok: bool, grown: seq<CatalogError>)
    ensures errors <= grown
    ensures ok && grown == errors <==>
      forall name :: name in before ==> name in after && OperationKept(name, before[name], after[name], pushDraft)
  {
    hide Strip, IsFault;
    ok, grown := true, errors;
    var todo := before.Keys;
    while todo != {}
      invariant todo <= before.Keys && errors <= grown
      invariant ok && grown == errors <==>
        forall name :: name in before.Keys - todo ==>
          name in after && OperationKept(name, before[name], after[name], pushDraft)
      decreases |todo|
    {
      var name :| name in todo;
      var at := [Field("operations"), Keyed(name)];
      if name !in after {
        grown := grown + [CatalogError(at, Removed)];
      } else if name == "host.provision" && pushDraft {
        assert OperationKept(name, before[name], after[name], pushDraft);
      } else {
        var x, y := Strip(name, before[name]), Strip(name, after[name]);
        if x.None? || y.None? {
          ok := false;
        } else {
          grown := CompareValue(Obj(x.value), Obj(y.value), at, grown);
        }
      }
      todo := todo - {name};
    }
  }

  /** The catalog comparison: not ok where the source raises on a malformed catalog. */
  method CatalogCompatibilityErrors(before: Fields, after: Fields, pushDraft: bool)
    returns (ok: bool, errors: seq<CatalogError>)
    ensures ok && errors == [] <==> Compatible(before, after, pushDraft)
  {
    hide FieldKept, Semver, OperationsOf, OperationsOk, Unambiguous, OperationKept;
    var fine, found := CompareFields(before, after, []);
    errors := found;
    if !VersionKept(before, after) {
      errors := errors + [CatalogError([Field("catalog_version")], BadVersion)];
    }
    var past, more := CatalogOperations(before, errors);
    var cur, evenMore := CatalogOperations(after, more);
    var unique := ProjectionUniqueness(cur, evenMore);
    var kept, all := CompareOperations(past, cur, pushDraft, unique);
    ok, errors := fine && kept, all;
  }
}
