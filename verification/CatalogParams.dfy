/** The optional parameters that published operations were allowed to gain, and operations without them. */
module CatalogParams {
  import opened Wrappers
  import opened WireSchema

  type Fields = map<string, Json>

  const StringParams: map<string, seq<string>> := map[
    "host.release-upgrade" := ["operator_settings"],
    "hq.authority" := ["operator_settings", "max_duration", "min_remaining"],
    "host.admit" := ["operator_settings"],
    "host.cordon" := ["operator_settings"],
    "host.drain" := ["operator_settings"],
    "host.park" := ["operator_settings"],
    "host.resume" := ["operator_settings"],
    "host.quarantine" := ["operator_settings"],
    "host.frame-retire" := ["operator_settings"],
    "host.emergency-admit" := ["operator_settings"],
    "host.emergency-revoke" := ["operator_settings"],
    "backfill.apply" := ["store"],
    "backfill.export" := ["store"]
  ]

  const StringType: Json := Obj(map["type" := Str("string")])
  const BooleanType: Json := Obj(map["type" := Str("boolean")])
  const ArrayType: Json := Obj(map["type" := Str("array"), "items" := Obj(map[])])

  const RepairParams: map<string, Fields> := map[
    "host.release-upgrade" := map[
      "frame_address" := StringType, "password_stdin" := BooleanType, "target_route" := StringType],
    "hq.authority" := map[
      "spec" := StringType, "allow_downgrade" := BooleanType, "allow_unknown_readers" := BooleanType,
      "plan_sha256" := StringType, "verb" := StringType],
    "work.accept" := map["work" := StringType, "new_work" := BooleanType],
    "backfill.export" := map["history" := BooleanType],
    "backfill.timeline" := map["since_cursor" := BooleanType],
    "worktree.status" := map[
      "local_safe" := BooleanType, "root" := ArrayType, "repo" := ArrayType, "base" := ArrayType,
      "targets_from" := StringType],
    "worktree.prune" := map[
      "local_safe" := BooleanType, "root" := ArrayType, "repo" := ArrayType, "base" := ArrayType,
      "targets_from" := StringType, "dry_run" := BooleanType, "as_json" := BooleanType]
  ]

  const RecoveryAlias: map<string, string> := map["worktree.status" := "wt status", "worktree.prune" := "wt prune"]

  predicate Listed(name: string) {
    name in StringParams || name in RepairParams
  }

  /** The schema an approved parameter of the operation must have. */
  function ApprovedSchema(name: string, parameter: string): Option<Json> {
    if name in StringParams && parameter in StringParams[name] then Some(StringType)
    else if name in RepairParams && parameter in RepairParams[name] then Some(RepairParams[name][parameter])
    else None
  }

  /** An approved parameter is exactly an optional one of its approved name and schema. */
  predicate Approved(name: string, item: Json) {
    && item.Obj? && "name" in item.members && item.members["name"].Str?
    && var schema := ApprovedSchema(name, item.members["name"].s);
    && schema.Some?
    && item.members - {"name"} == map["privilege" := Str("inherited"), "required" := Boolean(false), "schema" := schema.value]
  }

  /** Values that can be looked up in a set or a dictionary. */
  predicate Hashable(j: Json) {
    !j.Arr? && !j.Obj?
  }

  predicate AllHashable(items: seq<Json>) {
    forall i :: 0 <= i < |items| ==> Hashable(items[i])
  }

  /** Parameters whose names can be looked up in the tables. */
  predicate NamesHashable(items: seq<Json>) {
    forall i :: 0 <= i < |items| && items[i].Obj? && "name" in items[i].members ==> Hashable(items[i].members["name"])
  }

  function Kept(name: string, items: seq<Json>): seq<Json> {
    if items == [] then []
    else if Approved(name, items[0]) then Kept(name, items[1..])
    else [items[0]] + Kept(name, items[1..])
  }

  function Dropped(name: string, items: seq<Json>): set<string> {
    set i | 0 <= i < |items| && Approved(name, items[i]) :: items[i].members["name"].s
  }

  /** The list without the dropped names. */
  function Without(items: seq<Json>, dropped: set<string>): seq<Json> {
    if items == [] then []
    else if items[0].Str? && items[0].s in dropped then Without(items[1..], dropped)
    else [items[0]] + Without(items[1..], dropped)
  }

  /** The fields with the dropped names taken out of their parameter list; None where the lookup raises. */
  function WithoutIn(fields: Fields, dropped: set<string>): Option<Fields> {
    if "parameters" !in fields || !fields["parameters"].Arr? then Some(fields)
    else if !AllHashable(fields["parameters"].items) then None
    else Some(fields["parameters" := Arr(Without(fields["parameters"].items, dropped))])
  }

  predicate IsAlias(alias: Json, path: string) {
    alias.Obj? && "path" in alias.members && alias.members["path"] == Str(path)
  }

  function WithoutInAliases(aliases: seq<Json>, path: string, dropped: set<string>): Option<seq<Json>> {
    if aliases == [] then Some([])
    else
      var head := if IsAlias(aliases[0], path) then WithoutIn(aliases[0].members, dropped) else None;
      var tail := WithoutInAliases(aliases[1..], path, dropped);
      if tail.None? || (IsAlias(aliases[0], path) && head.None?) then None
      else Some([if IsAlias(aliases[0], path) then Obj(head.value) else aliases[0]] + tail.value)
  }

  function GetOr(fields: Fields, key: string, default: Json): Json {
    if key in fields then fields[key] else default
  }

  function StripAliases(name: string, cli: Fields, dropped: set<string>): Option<Fields> {
    if name !in RecoveryAlias || "aliases" !in cli || cli["aliases"].Str? || cli["aliases"].Obj? then Some(cli)
    else if !cli["aliases"].Arr? then None
    else
      var aliases := WithoutInAliases(cli["aliases"].items, RecoveryAlias[name], dropped);
      if aliases.None? then None else Some(cli["aliases" := Arr(aliases.value)])
  }

  function StripCli(name: string, cli: Fields, dropped: set<string>): Option<Fields> {
    var listed := WithoutIn(cli, dropped);
    if listed.None? then None else StripAliases(name, listed.value, dropped)
  }

  /** The operation without its approved optional parameters; None where the source raises. */
  function Strip(name: string, op: Fields): Option<Fields> {
    if !Listed(name) then Some(op)
    else
      var surfaces := GetOr(op, "surfaces", Obj(map[]));
      if !surfaces.Obj? then None
      else
        var cli := GetOr(surfaces.members, "cli", Obj(map[]));
        if "parameters" !in op || !op["parameters"].Arr? then Some(op)
        else if !NamesHashable(op["parameters"].items) || !cli.Obj? then None
        else
          var items := op["parameters"].items;
          var stripped := StripCli(name, cli.members, Dropped(name, items));
          if stripped.None? then None
          else
            var kept := op["parameters" := Arr(Kept(name, items))];
            Some(if "cli" in surfaces.members
                 then kept["surfaces" := Obj(surfaces.members["cli" := Obj(stripped.value)])] else kept)
  }

  // ----- stripping twice -----

  lemma {:induction false} KeptOnce(name: string, items: seq<Json>)
    ensures Kept(name, Kept(name, items)) == Kept(name, items)
    ensures forall i :: 0 <= i < |Kept(name, items)| ==> !Approved(name, Kept(name, items)[i])
    ensures NamesHashable(items) ==> NamesHashable(Kept(name, items))
  {
    hide Approved;
    if items != [] {
      KeptOnce(name, items[1..]);
      var rest := Kept(name, items[1..]);
      assert ([items[0]] + rest)[1..] == rest;
      if NamesHashable(items) {
        assert NamesHashable(items[1..]);
      }
    }
  }

  lemma {:induction false} WithoutOnce(items: seq<Json>, dropped: set<string>)
    requires AllHashable(items)
    ensures AllHashable(Without(items, dropped))
    ensures Without(Without(items, dropped), {}) == Without(items, dropped)
  {
    if items != [] {
      WithoutOnce(items[1..], dropped);
      var rest := Without(items[1..], dropped);
      assert ([items[0]] + rest)[1..] == rest;
    }
  }

  lemma Rewritten(fields: Fields, key: string)
    requires key in fields
    ensures fields[key := fields[key]] == fields
  {}

  lemma WithoutInOnce(fields: Fields, dropped: set<string>)
    requires WithoutIn(fields, dropped).Some?
    ensures WithoutIn(WithoutIn(fields, dropped).value, {}) == WithoutIn(fields, dropped)
    ensures WithoutIn(fields, dropped).value.Keys == fields.Keys
    ensures forall k :: k in fields && k != "parameters" ==> WithoutIn(fields, dropped).value[k] == fields[k]
  {
    if "parameters" in fields && fields["parameters"].Arr? {
      WithoutOnce(fields["parameters"].items, dropped);
      Rewritten(WithoutIn(fields, dropped).value, "parameters");
    }
  }

  lemma {:induction false} AliasesOnce(aliases: seq<Json>, path: string, dropped: set<string>)
    requires WithoutInAliases(aliases, path, dropped).Some?
    ensures var once := WithoutInAliases(aliases, path, dropped); WithoutInAliases(once.value, path, {}) == once
  {
    hide WithoutIn;
    if aliases != [] {
      AliasesOnce(aliases[1..], path, dropped);
      var once := WithoutInAliases(aliases, path, dropped).value;
      var rest := WithoutInAliases(aliases[1..], path, dropped).value;
      assert once[1..] == rest;
      if IsAlias(aliases[0], path) {
        WithoutInOnce(aliases[0].members, dropped);
        assert IsAlias(once[0], path);
      }
    }
  }

  lemma StripAliasesOnce(name: string, cli: Fields, dropped: set<string>)
    requires StripAliases(name, cli, dropped).Some?
    ensures StripAliases(name, StripAliases(name, cli, dropped).value, {}) == StripAliases(name, cli, dropped)
  {
    hide WithoutInAliases;
    if name in RecoveryAlias && "aliases" in cli && cli["aliases"].Arr? {
      AliasesOnce(cli["aliases"].items, RecoveryAlias[name], dropped);
      Rewritten(StripAliases(name, cli, dropped).value, "aliases");
    }
  }

  lemma StripCliOnce(name: string, cli: Fields, dropped: set<string>)
    requires StripCli(name, cli, dropped).Some?
    ensures StripCli(name, StripCli(name, cli, dropped).value, {}) == StripCli(name, cli, dropped)
  {
    hide WithoutInAliases, RecoveryAlias, Without;
    var listed := WithoutIn(cli, dropped).value;
    var stripped := StripAliases(name, listed, dropped).value;
    WithoutInOnce(cli, dropped);
    StripAliasesOnce(name, listed, dropped);
    assert "parameters" in stripped <==> "parameters" in listed;
    assert "parameters" in listed ==> stripped["parameters"] == listed["parameters"];
    assert WithoutIn(stripped, {}) == Some(stripped) by {
      if "parameters" in listed && listed["parameters"].Arr? {
        assert Without(listed["parameters"].items, {}) == listed["parameters"].items;
        assert stripped["parameters" := stripped["parameters"]] == stripped;
      }
    }
  }

  /** A stripped operation has nothing left to strip. */
  lemma StripOnce(name: string, op: Fields)
    requires Strip(name, op).Some?
    ensures Strip(name, Strip(name, op).value) == Strip(name, op)
  {
    hide StripCli, Kept, NamesHashable, Listed, Approved;
    if Listed(name) && "parameters" in op && op["parameters"].Arr? {
      var once := Strip(name, op).value;
      var items := op["parameters"].items;
      var surfaces := GetOr(op, "surfaces", Obj(map[]));
      var cli := GetOr(surfaces.members, "cli", Obj(map[]));
      var stripped := StripCli(name, cli.members, Dropped(name, items)).value;
      KeptOnce(name, items);
      assert Dropped(name, Kept(name, items)) == {};
      StripCliOnce(name, cli.members, Dropped(name, items));
      assert once["parameters"] == Arr(Kept(name, items));
      Rewritten(once, "parameters");
      if "cli" in surfaces.members {
        var renewed := surfaces.members["cli" := Obj(stripped)];
        assert once["surfaces"] == Obj(renewed);
        Rewritten(once, "surfaces");
        Rewritten(renewed, "cli");
      } else {
        assert GetOr(once, "surfaces", Obj(map[])) == surfaces;
        EmptyCli(name, Dropped(name, items));
        EmptyCli(name, {});
      }
    }
  }

  lemma EmptyCli(name: string, dropped: set<string>)
    ensures StripCli(name, map[], dropped) == Some(map[])
  {}

  /** Operations that strip alike agree on every field but the parameters and surfaces, and on their
      parameters in order once the approved ones are dropped. */
  lemma StripAlike(name: string, x: Fields, y: Fields, key: string)
    requires Strip(name, x).Some? && Strip(name, x) == Strip(name, y)
    requires key != "parameters" && key != "surfaces"
    ensures key in x <==> key in y
    ensures key in x ==> x[key] == y[key]
    ensures "parameters" in x && x["parameters"].Arr? ==>
      "parameters" in y && y["parameters"].Arr?
      && (Listed(name) ==> Kept(name, x["parameters"].items) == Kept(name, y["parameters"].items))
      && (!Listed(name) ==> x["parameters"] == y["parameters"])
  {
    hide StripCli, Kept, Dropped, NamesHashable, Listed;
    StripFields(name, x);
    StripFields(name, y);
  }

  lemma StripFields(name: string, op: Fields)
    requires Strip(name, op).Some?
    ensures var s := Strip(name, op).value;
      s.Keys == op.Keys && (forall key :: key in op && key != "parameters" && key != "surfaces" ==> s[key] == op[key])
      && ("parameters" in op ==>
            s["parameters"] == if Listed(name) && op["parameters"].Arr? then Arr(Kept(name, op["parameters"].items)) else op["parameters"])
  {
    hide StripCli, Kept, Dropped, NamesHashable, Listed;
  }
}
