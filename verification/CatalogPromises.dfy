/** What compatible catalogs promise, on the published values themselves: parameters, command-line
    surfaces, projections and versions. */
module CatalogPromises {
  import opened Wrappers
  import opened WireSchema
  import opened CatalogParams
  import opened Catalog
  import Versions

  // ----- lists that differ by dropped elements -----

  /** The positions below n that are not gone, in order. */
  ghost predicate Picks(f: seq<nat>, n: nat, gone: set<nat>) {
    && (forall i, j :: 0 <= i < j < |f| ==> f[i] < f[j])
    && (forall k: nat :: k in f <==> k < n && k !in gone)
  }

  /** What is left of one list is what is left of the other, in the same order. */
  ghost predicate SameRest<T>(xs: seq<T>, gone: set<nat>, ys: seq<T>, lost: set<nat>) {
    exists f, g ::
      && Picks(f, |xs|, gone) && Picks(g, |ys|, lost) && |f| == |g|
      && forall i :: 0 <= i < |f| ==> f[i] < |xs| && g[i] < |ys| && xs[f[i]] == ys[g[i]]
  }

  /** The elements of xs at the given positions. */
  function At<T>(xs: seq<T>, f: seq<nat>): seq<T>
    requires forall i :: 0 <= i < |f| ==> f[i] < |xs|
  {
    seq(|f|, i requires 0 <= i < |f| => xs[f[i]])
  }

  function Shifted(f: seq<nat>): (g: seq<nat>)
    ensures |g| == |f| && forall i :: 0 <= i < |f| ==> g[i] == f[i] + 1
  {
    seq(|f|, i requires 0 <= i < |f| => f[i] + 1)
  }

  /** Positions in a list from those in its tail. */
  lemma PicksStep(f: seq<nat>, n: nat, tail: set<nat>, gone: set<nat>) returns (g: seq<nat>)
    requires Picks(f, n, tail) && forall k: nat :: k < n ==> (k in tail <==> k + 1 in gone)
    ensures Picks(g, n + 1, gone) && g == (if 0 in gone then [] else [0]) + Shifted(f)
  {
    g := (if 0 in gone then [] else [0]) + Shifted(f);
    forall k: nat ensures k in g <==> k < n + 1 && k !in gone {
      if k < n + 1 && k !in gone && k > 0 {
        assert k - 1 in f;
        var i :| 0 <= i < |f| && f[i] == k - 1;
        assert Shifted(f)[i] == k;
      }
      if k in Shifted(f) {
        var i :| 0 <= i < |f| && Shifted(f)[i] == k;
        assert f[i] in f;
      }
    }
  }

  lemma AtStep<T>(x: T, xs: seq<T>, f: seq<nat>)
    requires forall i :: 0 <= i < |f| ==> f[i] < |xs|
    ensures At([x] + xs, Shifted(f)) == At(xs, f)
    ensures At([x] + xs, [0] + Shifted(f)) == [x] + At(xs, f)
  {
    assert At([x] + xs, Shifted(f)) == At(xs, f);
  }

  lemma PicksBelow(f: seq<nat>, n: nat, gone: set<nat>)
    requires Picks(f, n, gone)
    ensures forall i :: 0 <= i < |f| ==> f[i] < n
  {
    forall i | 0 <= i < |f| ensures f[i] < n {
      assert f[i] in f;
    }
  }

  /** Two lists with equal remainders. */
  lemma SameRestOf<T>(xs: seq<T>, gone: set<nat>, f: seq<nat>, ys: seq<T>, lost: set<nat>, g: seq<nat>)
    requires Picks(f, |xs|, gone) && Picks(g, |ys|, lost)
    requires forall i :: 0 <= i < |f| ==> f[i] < |xs|
    requires forall i :: 0 <= i < |g| ==> g[i] < |ys|
    requires At(xs, f) == At(ys, g)
    ensures SameRest(xs, gone, ys, lost)
  {
    assert |At(xs, f)| == |f| && |At(ys, g)| == |g|;
    forall i | 0 <= i < |f| ensures xs[f[i]] == ys[g[i]] {
      assert At(xs, f)[i] == At(ys, g)[i];
    }
  }

  // ----- parameters -----

  /** The positions of approved optional parameters. */
  function ApprovedAt(name: string, items: seq<Json>): set<nat> {
    set i: nat | i < |items| && Approved(name, items[i])
  }

  lemma {:induction false} KeptPicks(name: string, items: seq<Json>) returns (f: seq<nat>)
    ensures Picks(f, |items|, ApprovedAt(name, items)) && (forall i :: 0 <= i < |f| ==> f[i] < |items|)
    ensures Kept(name, items) == At(items, f)
  {
    hide Approved;
    f := [];
    if items != [] {
      var rest := KeptPicks(name, items[1..]);
      f := PicksStep(rest, |items| - 1, ApprovedAt(name, items[1..]), ApprovedAt(name, items));
      AtStep(items[0], items[1..], rest);
      assert items == [items[0]] + items[1..];
      PicksBelow(f, |items|, ApprovedAt(name, items));
      assert [] + Shifted(rest) == Shifted(rest);
    } else {
      assert At(items, f) == [];
    }
  }

  /** Equal remainders of two parameter lists, on the lists themselves. */
  lemma KeptAlike(name: string, xs: seq<Json>, ys: seq<Json>)
    requires Kept(name, xs) == Kept(name, ys)
    ensures SameRest(xs, ApprovedAt(name, xs), ys, ApprovedAt(name, ys))
  {
    hide Kept, Approved;
    var f := KeptPicks(name, xs);
    var g := KeptPicks(name, ys);
    SameRestOf(xs, ApprovedAt(name, xs), f, ys, ApprovedAt(name, ys), g);
  }

  /** What an approved parameter is: an object of a text name, inherited privilege, not required, and a schema. */
  lemma ApprovedIsOptional(name: string, item: Json)
    requires Approved(name, item)
    ensures item.Obj? && item.members.Keys == {"name", "privilege", "required", "schema"}
    ensures item.members["required"] == Boolean(false) && item.members["privilege"] == Str("inherited")
    ensures item.members["name"].Str? && ApprovedSchema(name, item.members["name"].s) == Some(item.members["schema"])
  {
    var rest := item.members - {"name"};
    assert item.members.Keys == rest.Keys + {"name"};
    assert rest.Keys == {"privilege", "required", "schema"};
    assert rest["required"] == item.members["required"] && rest["privilege"] == item.members["privilege"] && rest["schema"] == item.members["schema"];
  }

  /** And every such object is approved. */
  lemma OptionalIsApproved(name: string, parameter: string, schema: Json)
    requires ApprovedSchema(name, parameter) == Some(schema)
    ensures Approved(name, Obj(map["name" := Str(parameter), "privilege" := Str("inherited"), "required" := Boolean(false), "schema" := schema]))
  {
    var members := map["name" := Str(parameter), "privilege" := Str("inherited"), "required" := Boolean(false), "schema" := schema];
    assert members - {"name"} == map["privilege" := Str("inherited"), "required" := Boolean(false), "schema" := schema];
  }

  /** The optional text parameters, by their names: which operations may gain each. */
  predicate MayGainText(name: string, parameter: string) {
    || (parameter == "operator_settings" && name in {"host.release-upgrade", "hq.authority", "host.admit", "host.cordon", "host.drain",
          "host.park", "host.resume", "host.quarantine", "host.frame-retire", "host.emergency-admit", "host.emergency-revoke"})
    || (parameter in {"max_duration", "min_remaining"} && name == "hq.authority")
    || (parameter == "store" && name in {"backfill.apply", "backfill.export"})
  }

  /** The approved repairs by their names, with their schemas. */
  function Repair(name: string, parameter: string): Option<Json> {
    if name == "hq.authority" then
      if parameter in {"spec", "plan_sha256", "verb"} then Some(Obj(map["type" := Str("string")]))
      else if parameter in {"allow_downgrade", "allow_unknown_readers"} then Some(Obj(map["type" := Str("boolean")]))
      else None
    else if name == "host.release-upgrade" then
      if parameter in {"frame_address", "target_route"} then Some(Obj(map["type" := Str("string")]))
      else if parameter == "password_stdin" then Some(Obj(map["type" := Str("boolean")]))
      else None
    else if name == "work.accept" then
      if parameter == "work" then Some(Obj(map["type" := Str("string")]))
      else if parameter == "new_work" then Some(Obj(map["type" := Str("boolean")]))
      else None
    else if name == "backfill.export" && parameter == "history" then Some(Obj(map["type" := Str("boolean")]))
    else if name == "backfill.timeline" && parameter == "since_cursor" then Some(Obj(map["type" := Str("boolean")]))
    else if name in {"worktree.status", "worktree.prune"} then
      if parameter == "targets_from" then Some(Obj(map["type" := Str("string")]))
      else if parameter == "local_safe" || (parameter in {"dry_run", "as_json"} && name == "worktree.prune") then
        Some(Obj(map["type" := Str("boolean")]))
      else if parameter in {"root", "repo", "base"} then Some(Obj(map["type" := Str("array"), "items" := Obj(map[])]))
      else None
    else None
  }

  lemma TextApproved(name: string, parameter: string)
    ensures name in StringParams && parameter in StringParams[name] <==> MayGainText(name, parameter)
  {
    if name == "hq.authority" {
    } else if name == "backfill.apply" || name == "backfill.export" {
    } else if name in StringParams {
      assert StringParams[name] == ["operator_settings"];
    }
  }

  lemma RepairApproved(name: string, parameter: string)
    ensures Repair(name, parameter) ==
      if name in RepairParams && parameter in RepairParams[name] then Some(RepairParams[name][parameter]) else None
  {
    if name == "hq.authority" {
    } else if name == "host.release-upgrade" {
    } else if name == "work.accept" {
    } else if name == "worktree.status" {
    } else if name == "worktree.prune" {
    }
  }

  /** Exactly these parameters are approved, with these schemas. */
  lemma ApprovedExactly(name: string, parameter: string)
    ensures ApprovedSchema(name, parameter) ==
      if MayGainText(name, parameter) then Some(Obj(map["type" := Str("string")])) else Repair(name, parameter)
  {
    hide MayGainText, Repair, StringParams, RepairParams;
    TextApproved(name, parameter);
    RepairApproved(name, parameter);
  }

  /** Some optional parameter is approved for the operation. */
  ghost predicate MayGain(name: string) {
    exists parameter :: ApprovedSchema(name, parameter).Some?
  }

  /** The listed operations are those. */
  lemma ListedIff(name: string)
    ensures Listed(name) <==> MayGain(name)
  {
    if name in StringParams {
      assert StringParams[name][0] in StringParams[name];
      assert ApprovedSchema(name, StringParams[name][0]).Some?;
    } else if name in RepairParams {
      var parameter :=
        if name == "work.accept" then "work" else if name == "backfill.export" then "history"
        else if name == "backfill.timeline" then "since_cursor" else "targets_from";
      assert ApprovedSchema(name, parameter).Some?;
    }
  }

  // ----- the command-line surface -----

  function GoneAt(list: seq<Json>, dropped: set<string>): set<nat> {
    set i: nat | i < |list| && list[i].Str? && list[i].s in dropped
  }

  lemma {:induction false} WithoutPicks(list: seq<Json>, dropped: set<string>) returns (f: seq<nat>)
    ensures Picks(f, |list|, GoneAt(list, dropped)) && (forall i :: 0 <= i < |f| ==> f[i] < |list|)
    ensures Without(list, dropped) == At(list, f)
  {
    f := [];
    if list != [] {
      var rest := WithoutPicks(list[1..], dropped);
      f := PicksStep(rest, |list| - 1, GoneAt(list[1..], dropped), GoneAt(list, dropped));
      AtStep(list[0], list[1..], rest);
      assert list == [list[0]] + list[1..];
      PicksBelow(f, |list|, GoneAt(list, dropped));
      assert [] + Shifted(rest) == Shifted(rest);
    } else {
      assert At(list, f) == [];
    }
  }

  /** Two field values are alike: lists that agree once dropped names are left out, or the same value. */
  ghost predicate NamesAlike(x: Json, dx: set<string>, y: Json, dy: set<string>) {
    if x.Arr? && y.Arr? then SameRest(x.items, GoneAt(x.items, dx), y.items, GoneAt(y.items, dy)) else x == y
  }

  /** Two objects agree on every field, on the parameter list up to dropped names. */
  ghost predicate FieldsAlike(x: Fields, dx: set<string>, y: Fields, dy: set<string>) {
    && x.Keys == y.Keys && (forall k :: k in x && k != "parameters" ==> x[k] == y[k])
    && ("parameters" in x ==> NamesAlike(x["parameters"], dx, y["parameters"], dy))
  }

  lemma WithoutAlike(xs: seq<Json>, dx: set<string>, ys: seq<Json>, dy: set<string>)
    requires Without(xs, dx) == Without(ys, dy)
    ensures SameRest(xs, GoneAt(xs, dx), ys, GoneAt(ys, dy))
  {
    hide Without;
    var f := WithoutPicks(xs, dx);
    var g := WithoutPicks(ys, dy);
    SameRestOf(xs, GoneAt(xs, dx), f, ys, GoneAt(ys, dy), g);
  }

  lemma WithoutInAlike(x: Fields, dx: set<string>, y: Fields, dy: set<string>)
    requires WithoutIn(x, dx).Some? && WithoutIn(x, dx) == WithoutIn(y, dy)
    ensures FieldsAlike(x, dx, y, dy)
  {
    hide Without, SameRest;
    WithoutInOnce(x, dx);
    WithoutInOnce(y, dy);
    var z := WithoutIn(x, dx).value;
    forall k | k in x && k != "parameters" ensures x[k] == y[k] {
      assert z[k] == x[k] && z[k] == y[k];
    }
    if "parameters" in x && x["parameters"].Arr? && y["parameters"].Arr? {
      WithoutAlike(x["parameters"].items, dx, y["parameters"].items, dy);
    }
  }

  /** Aliases stay in place; the one with the recovery path may gain approved names in its parameter list. */
  ghost predicate AliasesAlike(path: string, xs: seq<Json>, dx: set<string>, ys: seq<Json>, dy: set<string>) {
    |xs| == |ys| && forall i :: 0 <= i < |xs| ==>
      if xs[i].Obj? && "path" in xs[i].members && xs[i].members["path"] == Str(path) then ys[i].Obj? && FieldsAlike(xs[i].members, dx, ys[i].members, dy) else xs[i] == ys[i]
  }

  lemma {:induction false} WithoutInAliasesAlike(path: string, xs: seq<Json>, dx: set<string>, ys: seq<Json>, dy: set<string>)
    requires WithoutInAliases(xs, path, dx).Some? && WithoutInAliases(xs, path, dx) == WithoutInAliases(ys, path, dy)
    ensures AliasesAlike(path, xs, dx, ys, dy)
  {
    hide WithoutIn, FieldsAlike;
    var zs := WithoutInAliases(xs, path, dx).value;
    if xs != [] && ys != [] {
      assert zs[1..] == WithoutInAliases(xs[1..], path, dx).value && zs[1..] == WithoutInAliases(ys[1..], path, dy).value;
      WithoutInAliasesAlike(path, xs[1..], dx, ys[1..], dy);
      HeadAlike(path, xs[0], dx, ys[0], dy, zs[0]);
      assert forall i :: 0 < i < |xs| ==> xs[i] == xs[1..][i - 1] && ys[i] == ys[1..][i - 1];
    }
  }

  /** What one alias becomes. */
  ghost predicate Becomes(path: string, alias: Json, dropped: set<string>, z: Json) {
    if IsAlias(alias, path) then WithoutIn(alias.members, dropped).Some? && z == Obj(WithoutIn(alias.members, dropped).value)
    else z == alias
  }

  lemma HeadAlike(path: string, x: Json, dx: set<string>, y: Json, dy: set<string>, z: Json)
    requires Becomes(path, x, dx, z) && Becomes(path, y, dy, z)
    ensures if IsAlias(x, path) then y.Obj? && FieldsAlike(x.members, dx, y.members, dy) else x == y
  {
    hide FieldsAlike, WithoutIn;
    if IsAlias(x, path) {
      WithoutInOnce(x.members, dx);
      assert IsAlias(z, path);
      if !IsAlias(y, path) {
        assert false;
      }
      WithoutInAlike(x.members, dx, y.members, dy);
    } else if IsAlias(y, path) {
      WithoutInOnce(y.members, dy);
      assert false;
    }
  }

  /** Two command-line surfaces agree on everything but the names of approved parameters. */
  ghost predicate CliAlike(name: string, x: Fields, dx: set<string>, y: Fields, dy: set<string>) {
    && x.Keys == y.Keys && (forall k :: k in x && k != "parameters" && k != "aliases" ==> x[k] == y[k])
    && ("parameters" in x ==> NamesAlike(x["parameters"], dx, y["parameters"], dy))
    && ("aliases" in x ==>
          if name == "worktree.status" && x["aliases"].Arr? && y["aliases"].Arr? then
            AliasesAlike("wt status", x["aliases"].items, dx, y["aliases"].items, dy)
          else if name == "worktree.prune" && x["aliases"].Arr? && y["aliases"].Arr? then
            AliasesAlike("wt prune", x["aliases"].items, dx, y["aliases"].items, dy)
          else x["aliases"] == y["aliases"])
  }

  lemma StripAliasesFields(name: string, cli: Fields, dropped: set<string>)
    requires StripAliases(name, cli, dropped).Some?
    ensures var z := StripAliases(name, cli, dropped).value;
      && z.Keys == cli.Keys && (forall k :: k in cli && k != "aliases" ==> z[k] == cli[k])
      && ("aliases" in cli && name in RecoveryAlias && cli["aliases"].Arr? ==>
            WithoutInAliases(cli["aliases"].items, RecoveryAlias[name], dropped).Some?
            && z["aliases"] == Arr(WithoutInAliases(cli["aliases"].items, RecoveryAlias[name], dropped).value))
      && ("aliases" in cli && !(name in RecoveryAlias && cli["aliases"].Arr?) ==> z["aliases"] == cli["aliases"])
  {
    hide WithoutInAliases;
  }

  lemma StripCliAlike(name: string, x: Fields, dx: set<string>, y: Fields, dy: set<string>)
    requires StripCli(name, x, dx).Some? && StripCli(name, x, dx) == StripCli(name, y, dy)
    ensures CliAlike(name, x, dx, y, dy)
  {
    hide WithoutIn, StripAliases, AliasesAlike, SameRest, WithoutInAliases, FieldsAlike;
    var a, b := WithoutIn(x, dx).value, WithoutIn(y, dy).value;
    WithoutInOnce(x, dx);
    WithoutInOnce(y, dy);
    StripAliasesFields(name, a, dx);
    StripAliasesFields(name, b, dy);
    var z := StripCli(name, x, dx).value;
    ListsAlike(x, dx, y, dy, a, b);
    if "aliases" in x && name in RecoveryAlias && x["aliases"].Arr? && y["aliases"].Arr? {
      WithoutInAliasesAlike(RecoveryAlias[name], x["aliases"].items, dx, y["aliases"].items, dy);
    }
  }

  lemma ListsAlike(x: Fields, dx: set<string>, y: Fields, dy: set<string>, a: Fields, b: Fields)
    requires WithoutIn(x, dx) == Some(a) && WithoutIn(y, dy) == Some(b)
    requires a.Keys == b.Keys && ("parameters" in a ==> a["parameters"] == b["parameters"])
    ensures x.Keys == y.Keys && ("parameters" in x ==> NamesAlike(x["parameters"], dx, y["parameters"], dy))
  {
    hide Without, SameRest;
    WithoutInOnce(x, dx);
    WithoutInOnce(y, dy);
    if "parameters" in x && x["parameters"].Arr? && y["parameters"].Arr? {
      WithoutAlike(x["parameters"].items, dx, y["parameters"].items, dy);
    }
  }

  // ----- and back -----

  /** Increasing positions are determined by which they are. */
  lemma {:induction false} PicksUnique(f: seq<nat>, g: seq<nat>, n: nat, gone: set<nat>)
    requires Picks(f, n, gone) && Picks(g, n, gone)
    ensures f == g
    decreases n
  {
    if n == 0 {
      PicksBelow(f, n, gone);
      PicksBelow(g, n, gone);
      if f != [] { PickedBelow(f, n, gone); }
      if g != [] { PickedBelow(g, n, gone); }
    } else if n - 1 in gone {
      assert Picks(f, n - 1, gone) && Picks(g, n - 1, gone);
      PicksUnique(f, g, n - 1, gone);
    } else {
      LastPick(f, n, gone);
      LastPick(g, n, gone);
      PicksUnique(f[..|f| - 1], g[..|g| - 1], n - 1, gone);
    }
  }

  lemma PickedBelow(f: seq<nat>, n: nat, gone: set<nat>)
    requires Picks(f, n, gone) && f != []
    ensures n > 0
  {
    assert f[0] in f;
  }

  lemma LastPick(f: seq<nat>, n: nat, gone: set<nat>)
    requires Picks(f, n, gone) && n > 0 && n - 1 !in gone
    ensures f != [] && f == f[..|f| - 1] + [n - 1] && Picks(f[..|f| - 1], n - 1, gone)
  {
    assert n - 1 in f;
    PicksBelow(f, n, gone);
    var i :| 0 <= i < |f| && f[i] == n - 1;
    var last := f[|f| - 1];
    assert last < n && last >= n - 1;
    var front := f[..|f| - 1];
    forall k: nat ensures k in front <==> k < n - 1 && k !in gone {
      if k in front {
        var j :| 0 <= j < |front| && front[j] == k;
        assert f[j] == k && f[j] < f[|f| - 1] && k in f;
      }
      if k < n - 1 && k !in gone {
        assert k in f;
        var j :| 0 <= j < |f| && f[j] == k;
        assert front[j] == k;
      }
    }
  }

  lemma RestIsAt<T>(xs: seq<T>, gone: set<nat>, f: seq<nat>, ys: seq<T>, lost: set<nat>, g: seq<nat>)
    requires SameRest(xs, gone, ys, lost) && Picks(f, |xs|, gone) && Picks(g, |ys|, lost)
    requires forall i :: 0 <= i < |f| ==> f[i] < |xs|
    requires forall i :: 0 <= i < |g| ==> g[i] < |ys|
    ensures At(xs, f) == At(ys, g)
  {
    var p, q :|
      && Picks(p, |xs|, gone) && Picks(q, |ys|, lost) && |p| == |q|
      && forall i :: 0 <= i < |p| ==> p[i] < |xs| && q[i] < |ys| && xs[p[i]] == ys[q[i]];
    PicksUnique(f, p, |xs|, gone);
    PicksUnique(g, q, |ys|, lost);
  }

  lemma KeptIff(name: string, xs: seq<Json>, ys: seq<Json>)
    ensures Kept(name, xs) == Kept(name, ys) <==> SameRest(xs, ApprovedAt(name, xs), ys, ApprovedAt(name, ys))
  {
    hide Kept, Approved, SameRest;
    if Kept(name, xs) == Kept(name, ys) {
      KeptAlike(name, xs, ys);
    }
    if SameRest(xs, ApprovedAt(name, xs), ys, ApprovedAt(name, ys)) {
      var f := KeptPicks(name, xs);
      var g := KeptPicks(name, ys);
      RestIsAt(xs, ApprovedAt(name, xs), f, ys, ApprovedAt(name, ys), g);
    }
  }

  lemma WithoutIff(xs: seq<Json>, dx: set<string>, ys: seq<Json>, dy: set<string>)
    ensures Without(xs, dx) == Without(ys, dy) <==> SameRest(xs, GoneAt(xs, dx), ys, GoneAt(ys, dy))
  {
    hide Without, SameRest;
    if Without(xs, dx) == Without(ys, dy) {
      WithoutAlike(xs, dx, ys, dy);
    }
    if SameRest(xs, GoneAt(xs, dx), ys, GoneAt(ys, dy)) {
      var f := WithoutPicks(xs, dx);
      var g := WithoutPicks(ys, dy);
      RestIsAt(xs, GoneAt(xs, dx), f, ys, GoneAt(ys, dy), g);
    }
  }

  lemma WithoutInIff(x: Fields, dx: set<string>, y: Fields, dy: set<string>)
    requires WithoutIn(x, dx).Some? && WithoutIn(y, dy).Some?
    ensures WithoutIn(x, dx) == WithoutIn(y, dy) <==> FieldsAlike(x, dx, y, dy)
  {
    hide Without, SameRest;
    if WithoutIn(x, dx) == WithoutIn(y, dy) {
      WithoutInAlike(x, dx, y, dy);
    }
    if FieldsAlike(x, dx, y, dy) && "parameters" in x && x["parameters"].Arr? && y["parameters"].Arr? {
      WithoutIff(x["parameters"].items, dx, y["parameters"].items, dy);
      var a, b := WithoutIn(x, dx).value, WithoutIn(y, dy).value;
      assert forall k :: k in a ==> a[k] == b[k];
      assert a == b;
    } else if FieldsAlike(x, dx, y, dy) {
      assert forall k :: k in x ==> x[k] == y[k];
      assert x == y;
    }
  }

  lemma {:induction false} AliasesIff(path: string, xs: seq<Json>, dx: set<string>, ys: seq<Json>, dy: set<string>)
    requires WithoutInAliases(xs, path, dx).Some? && WithoutInAliases(ys, path, dy).Some?
    ensures WithoutInAliases(xs, path, dx) == WithoutInAliases(ys, path, dy) <==> AliasesAlike(path, xs, dx, ys, dy)
  {
    hide WithoutIn, FieldsAlike;
    if WithoutInAliases(xs, path, dx) == WithoutInAliases(ys, path, dy) {
      WithoutInAliasesAlike(path, xs, dx, ys, dy);
    }
    if AliasesAlike(path, xs, dx, ys, dy) && xs != [] {
      assert AliasesAlike(path, xs[1..], dx, ys[1..], dy);
      AliasesIff(path, xs[1..], dx, ys[1..], dy);
      if IsAlias(xs[0], path) {
        AlikeIsAlias(path, xs[0], dx, ys[0], dy);
        WithoutInIff(xs[0].members, dx, ys[0].members, dy);
      }
    }
  }

  lemma AlikeIsAlias(path: string, x: Json, dx: set<string>, y: Json, dy: set<string>)
    requires IsAlias(x, path) && y.Obj? && FieldsAlike(x.members, dx, y.members, dy)
    ensures IsAlias(y, path)
  {
    hide SameRest;
  }

  lemma CliIff(name: string, x: Fields, dx: set<string>, y: Fields, dy: set<string>)
    requires StripCli(name, x, dx).Some? && StripCli(name, y, dy).Some?
    ensures StripCli(name, x, dx) == StripCli(name, y, dy) <==> CliAlike(name, x, dx, y, dy)
  {
    hide WithoutIn, StripAliases, AliasesAlike, SameRest, WithoutInAliases;
    if StripCli(name, x, dx) == StripCli(name, y, dy) {
      StripCliAlike(name, x, dx, y, dy);
    }
    if CliAlike(name, x, dx, y, dy) {
      var a, b := WithoutIn(x, dx).value, WithoutIn(y, dy).value;
      WithoutInOnce(x, dx);
      WithoutInOnce(y, dy);
      StripAliasesFields(name, a, dx);
      StripAliasesFields(name, b, dy);
      ParametersBack(x, dx, y, dy, a, b);
      if "aliases" in x && name in RecoveryAlias && x["aliases"].Arr? && y["aliases"].Arr? {
        AliasesIff(RecoveryAlias[name], x["aliases"].items, dx, y["aliases"].items, dy);
      }
      var z, w := StripCli(name, x, dx).value, StripCli(name, y, dy).value;
      forall k | k in z ensures z[k] == w[k] {}
      assert z == w;
    }
  }

  lemma ParametersBack(x: Fields, dx: set<string>, y: Fields, dy: set<string>, a: Fields, b: Fields)
    requires WithoutIn(x, dx) == Some(a) && WithoutIn(y, dy) == Some(b)
    requires x.Keys == y.Keys && ("parameters" in x ==> NamesAlike(x["parameters"], dx, y["parameters"], dy))
    ensures "parameters" in x ==> "parameters" in a && "parameters" in b && a["parameters"] == b["parameters"]
  {
    hide Without, SameRest;
    if "parameters" in x && x["parameters"].Arr? && y["parameters"].Arr? {
      WithoutIff(x["parameters"].items, dx, y["parameters"].items, dy);
    }
  }

  // ----- operations -----

  /** The names of the approved parameters among these. */
  function ApprovedNames(name: string, params: seq<Json>): set<string> {
    set j | 0 <= j < |params| && Approved(name, params[j]) :: params[j].members["name"].s
  }

  predicate HasParameters(op: Fields) {
    "parameters" in op && op["parameters"].Arr?
  }

  /** Two operations of one name that differ in nothing but approved optional parameters: everything else is the
      same, the parameter lists agree in order once approved ones are left out, and so do the command-line
      lists once the names of these are. */
  ghost predicate OperationAlike(name: string, x: Fields, y: Fields) {
    if MayGain(name) && HasParameters(x) && HasParameters(y) then
      var xs, ys := x["parameters"].items, y["parameters"].items;
      AlikeBut(name, x, ApprovedAt(name, xs), ApprovedNames(name, xs), y, ApprovedAt(name, ys), ApprovedNames(name, ys))
    else x == y
  }

  /** The same for given parameters to leave out, by their positions and names. */
  ghost predicate AlikeBut(name: string, x: Fields, gone: set<nat>, dx: set<string>, y: Fields, lost: set<nat>, dy: set<string>)
    requires HasParameters(x) && HasParameters(y)
  {
    && x.Keys == y.Keys && (forall k :: k in x && k != "parameters" && k != "surfaces" ==> x[k] == y[k])
    && SameRest(x["parameters"].items, gone, y["parameters"].items, lost)
    && ("surfaces" in x ==> SurfacesAlike(name, x["surfaces"], dx, y["surfaces"], dy))
  }

  ghost predicate SurfacesAlike(name: string, x: Json, dx: set<string>, y: Json, dy: set<string>) {
    && x.Obj? && y.Obj? && x.members.Keys == y.members.Keys
    && (forall k :: k in x.members && k != "cli" ==> x.members[k] == y.members[k])
    && ("cli" in x.members ==>
          x.members["cli"].Obj? && y.members["cli"].Obj? && CliAlike(name, x.members["cli"].members, dx, y.members["cli"].members, dy))
  }

  /** What stripping makes of the fields of an operation that has parameters. */
  lemma StripParts(name: string, op: Fields)
    requires Listed(name) && HasParameters(op) && Strip(name, op).Some?
    ensures var z, params := Strip(name, op).value, op["parameters"].items;
      && z.Keys == op.Keys && (forall k :: k in op && k != "parameters" && k != "surfaces" ==> z[k] == op[k])
      && z["parameters"] == Arr(Kept(name, params))
      && ("surfaces" in op ==> Stripped(name, op["surfaces"], ApprovedNames(name, params), z["surfaces"]))
  {
    hide StripCli, Kept, NamesHashable, Listed, Approved;
    assert Dropped(name, op["parameters"].items) == ApprovedNames(name, op["parameters"].items);
  }

  ghost predicate Stripped(name: string, x: Json, dx: set<string>, z: Json) {
    && x.Obj? && z.Obj? && z.members.Keys == x.members.Keys
    && (forall k :: k in x.members && k != "cli" ==> z.members[k] == x.members[k])
    && ("cli" in x.members ==>
          && x.members["cli"].Obj? && StripCli(name, x.members["cli"].members, dx).Some?
          && z.members["cli"] == Obj(StripCli(name, x.members["cli"].members, dx).value))
  }

  lemma SurfacesIff(name: string, x: Json, dx: set<string>, y: Json, dy: set<string>, z: Json, w: Json)
    requires Stripped(name, x, dx, z) && Stripped(name, y, dy, w)
    ensures z == w <==> SurfacesAlike(name, x, dx, y, dy)
  {
    hide StripCli, CliAlike;
    if "cli" in x.members && "cli" in y.members {
      CliIff(name, x.members["cli"].members, dx, y.members["cli"].members, dy);
    }
    if SurfacesAlike(name, x, dx, y, dy) {
      assert forall k :: k in z.members ==> z.members[k] == w.members[k];
      assert z.members == w.members;
    }
    if z == w {
      assert forall k :: k in x.members && k != "cli" ==> z.members[k] == x.members[k] && w.members[k] == y.members[k];
    }
  }

  /** Stripping compares operations exactly so. */
  lemma StripIffAlike(name: string, x: Fields, y: Fields)
    requires Strip(name, x).Some? && Strip(name, y).Some?
    ensures Strip(name, x) == Strip(name, y) <==> OperationAlike(name, x, y)
  {
    hide Strip, Kept, SurfacesAlike, Stripped, Approved, SameRest, Listed, MayGain;
    ListedIff(name);
    if Listed(name) && HasParameters(x) && HasParameters(y) {
      StripParts(name, x);
      StripParts(name, y);
      var z, w := Strip(name, x).value, Strip(name, y).value;
      var xs, ys := x["parameters"].items, y["parameters"].items;
      KeptIff(name, xs, ys);
      if "surfaces" in x && "surfaces" in y {
        SurfacesIff(name, x["surfaces"], ApprovedNames(name, xs), y["surfaces"], ApprovedNames(name, ys), z["surfaces"], w["surfaces"]);
      }
      if OperationAlike(name, x, y) {
        assert forall k :: k in z ==> z[k] == w[k];
        assert z == w;
      }
      if z == w {
        assert forall k :: k in x && k != "parameters" && k != "surfaces" ==> z[k] == x[k] && w[k] == y[k];
      }
    } else {
      if !Listed(name) || !HasParameters(x) { Unstripped(name, x); }
      if !Listed(name) || !HasParameters(y) { Unstripped(name, y); }
      if Listed(name) && HasParameters(x) { StripParts(name, x); }
      if Listed(name) && HasParameters(y) { StripParts(name, y); }
    }
  }

  lemma Unstripped(name: string, op: Fields)
    requires Strip(name, op).Some? && !(Listed(name) && HasParameters(op))
    ensures Strip(name, op).value == op
  {
    hide Listed;
  }

  // ----- where stripping raises -----

  /** The parameter list holds a list or an object, which cannot be looked up in a set. */
  predicate ListRaises(fields: Fields) {
    && "parameters" in fields && fields["parameters"].Arr?
    && exists j :: j in fields["parameters"].items && (j.Arr? || j.Obj?)
  }

  predicate AliasRaises(path: string, alias: Json) {
    alias.Obj? && "path" in alias.members && alias.members["path"] == Str(path) && ListRaises(alias.members)
  }

  /** A parameter is named by a list or an object. */
  predicate NameRaises(item: Json) {
    item.Obj? && "name" in item.members && (item.members["name"].Arr? || item.members["name"].Obj?)
  }

  /** The aliases cannot be walked, or one with the path has such a list. */
  predicate AliasesRaise(path: string, cli: Fields) {
    && "aliases" in cli && !cli["aliases"].Str? && !cli["aliases"].Obj?
    && (cli["aliases"].Arr? ==> exists alias :: alias in cli["aliases"].items && AliasRaises(path, alias))
  }

  predicate CliRaises(name: string, cli: Fields) {
    || ListRaises(cli)
    || (name == "worktree.status" && AliasesRaise("wt status", cli))
    || (name == "worktree.prune" && AliasesRaise("wt prune", cli))
  }

  lemma WithoutInRaises(fields: Fields, dropped: set<string>)
    ensures WithoutIn(fields, dropped).None? <==> ListRaises(fields)
  {}

  lemma {:induction false} AliasListRaises(aliases: seq<Json>, path: string, dropped: set<string>)
    ensures WithoutInAliases(aliases, path, dropped).None? <==>
      exists alias :: alias in aliases && AliasRaises(path, alias)
  {
    hide WithoutIn, ListRaises;
    if aliases != [] {
      AliasListRaises(aliases[1..], path, dropped);
      if aliases[0].Obj? { WithoutInRaises(aliases[0].members, dropped); }
      assert aliases == [aliases[0]] + aliases[1..];
      assert (exists alias :: alias in aliases && AliasRaises(path, alias)) <==>
        AliasRaises(path, aliases[0]) || exists alias :: alias in aliases[1..] && AliasRaises(path, alias) by { hide AliasRaises; }
      assert WithoutInAliases(aliases, path, dropped).None? <==>
        WithoutInAliases(aliases[1..], path, dropped).None? || (IsAlias(aliases[0], path) && WithoutIn(aliases[0].members, dropped).None?);
    }
  }

  lemma StripCliRaises(name: string, cli: Fields, dropped: set<string>)
    ensures StripCli(name, cli, dropped).None? <==> CliRaises(name, cli)
  {
    hide WithoutInAliases, ListRaises, WithoutIn;
    WithoutInRaises(cli, dropped);
    if WithoutIn(cli, dropped).Some? {
      var listed := WithoutIn(cli, dropped).value;
      WithoutInOnce(cli, dropped);
      assert "aliases" in cli ==> listed["aliases"] == cli["aliases"];
      if name in RecoveryAlias && "aliases" in cli && cli["aliases"].Arr? {
        AliasListRaises(cli["aliases"].items, RecoveryAlias[name], dropped);
      }
    }
  }

  /** An operation that may gain a parameter has surfaces that are no object, a parameter named by a list or an
      object, or a command-line surface that cannot be read. */
  ghost predicate StripRaises(name: string, op: Fields) {
    MayGain(name) && (
      || ("surfaces" in op && !op["surfaces"].Obj?)
      || (HasParameters(op) && exists item :: item in op["parameters"].items && NameRaises(item))
      || (HasParameters(op) && "surfaces" in op && op["surfaces"].Obj? && "cli" in op["surfaces"].members
            && (op["surfaces"].members["cli"].Obj? ==> CliRaises(name, op["surfaces"].members["cli"].members))))
  }

  /** Stripping raises exactly there. */
  lemma StripRaisesIff(name: string, op: Fields)
    ensures Strip(name, op).None? <==> StripRaises(name, op)
  {
    hide StripCli, Kept, Dropped, Listed, MayGain, CliRaises, NamesHashable, NameRaises;
    ListedIff(name);
    if Listed(name) && HasParameters(op) {
      var items := op["parameters"].items;
      NamesHashableIff(items);
      var surfaces := GetOr(op, "surfaces", Obj(map[]));
      var cli := if surfaces.Obj? then GetOr(surfaces.members, "cli", Obj(map[])) else Null;
      if cli.Obj? {
        StripCliRaises(name, cli.members, Dropped(name, items));
        NothingRaises(name);
      }
    }
  }

  lemma NamesHashableIff(items: seq<Json>)
    ensures NamesHashable(items) <==> !exists item :: item in items && NameRaises(item)
  {
    forall i | 0 <= i < |items|
      ensures NameRaises(items[i]) <==> items[i].Obj? && "name" in items[i].members && !Hashable(items[i].members["name"])
    {}
    if item :| item in items && NameRaises(item) {
      var i :| 0 <= i < |items| && items[i] == item;
    }
    if !NamesHashable(items) {
      var i :| 0 <= i < |items| && items[i].Obj? && "name" in items[i].members && !Hashable(items[i].members["name"]);
      assert NameRaises(items[i]) && items[i] in items;
    }
  }

  lemma NothingRaises(name: string)
    ensures !CliRaises(name, map[])
  {}

  /** Every parameter that is not an approved optional one stays, and no other comes. */
  lemma UnapprovedStays(name: string, x: Fields, y: Fields)
    requires OperationAlike(name, x, y) && HasParameters(x)
    ensures HasParameters(y)
    ensures forall item :: !Approved(name, item) ==> (item in x["parameters"].items <==> item in y["parameters"].items)
  {
    hide Approved, MayGain, SurfacesAlike;
    if x != y {
      var xs, ys := x["parameters"].items, y["parameters"].items;
      forall item | !Approved(name, item) ensures item in xs <==> item in ys {
        RestMember(xs, ApprovedAt(name, xs), ys, ApprovedAt(name, ys), item);
        if item in xs { var i :| 0 <= i < |xs| && xs[i] == item; }
        if item in ys { var i :| 0 <= i < |ys| && ys[i] == item; }
      }
    }
  }

  lemma RestMember<T>(xs: seq<T>, gone: set<nat>, ys: seq<T>, lost: set<nat>, x: T)
    requires SameRest(xs, gone, ys, lost)
    ensures (exists i: nat :: i < |xs| && i !in gone && xs[i] == x) <==> (exists i: nat :: i < |ys| && i !in lost && ys[i] == x)
  {
    var f, g :|
      && Picks(f, |xs|, gone) && Picks(g, |ys|, lost) && |f| == |g|
      && forall i :: 0 <= i < |f| ==> f[i] < |xs| && g[i] < |ys| && xs[f[i]] == ys[g[i]];
    if i: nat :| i < |xs| && i !in gone && xs[i] == x {
      assert i in f;
      var k :| 0 <= k < |f| && f[k] == i;
      assert g[k] in g && ys[g[k]] == x;
    }
    if i: nat :| i < |ys| && i !in lost && ys[i] == x {
      assert i in g;
      var k :| 0 <= k < |g| && g[k] == i;
      assert f[k] in f && xs[f[k]] == x;
    }
  }

  /** Along a chain of error-free comparisons every operation of the first catalog other than host.provision
      is in the last one, under its name, and differs in nothing but approved optional parameters. */
  lemma ChainKeepsOperation(catalogs: seq<Fields>, drafts: seq<bool>, op: Json, name: string)
    requires Chain(catalogs, drafts) && |drafts| > 0
    requires "operations" in catalogs[0] && catalogs[0]["operations"].Arr? && op in catalogs[0]["operations"].items
    requires op.Obj? && "name" in op.members && op.members["name"] == Str(name) && name != "host.provision"
    ensures var last := catalogs[|drafts|];
      "operations" in last && last["operations"].Arr? && exists later ::
        && later in last["operations"].items && later.Obj? && "name" in later.members && later.members["name"] == Str(name)
        && OperationAlike(name, op.members, later.members)
        && (HasParameters(op.members) ==> HasParameters(later.members) && forall item :: !Approved(name, item) ==>
              (item in op.members["parameters"].items <==> item in later.members["parameters"].items))
  {
    hide Strip, Approved, Listed, OperationAlike, Compatible;
    ChainKeepsStripped(catalogs, drafts, op);
    var later :| later in catalogs[|drafts|]["operations"].items && SameStripped(op, later);
    StripIffAlike(name, op.members, later.members);
    if HasParameters(op.members) {
      UnapprovedStays(name, op.members, later.members);
    }
  }

  // ----- top-level fields and versions -----

  /** Every other field of a published catalog stays as it is, and none comes; command groups may only be joined
      by others. */
  lemma FieldsFrozen(before: Fields, after: Fields, pushDraft: bool, key: string)
    requires Compatible(before, after, pushDraft) && key != "operations" && key != "catalog_version"
    ensures key in before <==> key in after
    ensures key in before && key != "cli_parents" ==> before[key] == after[key]
    ensures key in before && key == "cli_parents" ==>
      || before[key] == after[key]
      || (before[key].Arr? && after[key].Arr? && forall row :: row in before[key].items ==> row in after[key].items)
  {
    hide VersionKept, Unambiguous, OperationKept, OperationsOf, OperationsOk;
    assert key in OtherKeys(before) <==> key in before;
    assert key in OtherKeys(after) <==> key in after;
  }

  /** The catalog's version is written X.Y.Z, without leading zeros, with these numbers. */
  predicate VersionIs(catalog: Fields, major: nat, minor: nat, patch: nat) {
    && "catalog_version" in catalog
    && catalog["catalog_version"] == Str(Versions.Decimal(major) + "." + Versions.Decimal(minor) + "." + Versions.Decimal(patch))
  }

  lemma SemverText(catalog: Fields, v: Versions.Version)
    ensures Semver(catalog) == Some(v) <==> v.kind.Final? && v.number == 0 && VersionIs(catalog, v.major, v.minor, v.patch)
  {
    hide Versions.Parse, Versions.ParseParts, Versions.Format, Versions.Decimal, Versions.PlainParts;
    Versions.FormatWritten(v.major, v.minor, v.patch, 0);
    if v.kind.Final? && v.number == 0 {
      Versions.ParseFormat(v);
      Versions.FormatParse(Versions.Format(v));
      PartsKind(Versions.Format(v));
    }
    if Semver(catalog) == Some(v) {
      var text := catalog["catalog_version"].s;
      Versions.FormatParse(text);
      PartsKind(text);
    }
  }

  lemma PartsKind(text: string)
    requires Versions.Parse(text).Some?
    ensures Versions.ParseParts(text).Some? && Versions.ParseParts(text).value.kind == Versions.Parse(text).value.kind
  {}

  /** The version is written so on both sides, keeps its major number, and does not move back. */
  lemma VersionKeptIff(before: Fields, after: Fields)
    ensures VersionKept(before, after) <==>
      exists major, minor, patch, minor', patch' ::
        && VersionIs(before, major, minor, patch) && VersionIs(after, major, minor', patch')
        && (minor < minor' || (minor == minor' && patch <= patch'))
  {
    hide Semver, VersionIs;
    if VersionKept(before, after) {
      var v, w := Semver(before).value, Semver(after).value;
      SemverText(before, v);
      SemverText(after, w);
    }
    forall major: nat, minor: nat, patch: nat, minor': nat, patch': nat |
        && VersionIs(before, major, minor, patch) && VersionIs(after, major, minor', patch')
        && (minor < minor' || (minor == minor' && patch <= patch'))
      ensures VersionKept(before, after)
    {
      SemverText(before, Versions.Version(major, minor, patch, Versions.Final, 0));
      SemverText(after, Versions.Version(major, minor', patch', Versions.Final, 0));
    }
  }

  // ----- projections -----

  /** The places where an operation names a command path, a tool or a resource. */
  datatype Place = Path | Alias(index: nat) | Tool | Resource

  /** One surface of an operation. */
  function Surface(op: Fields, surface: string): Fields {
    if "surfaces" in op && op["surfaces"].Obj? && surface in op["surfaces"].members && op["surfaces"].members[surface].Obj?
    then op["surfaces"].members[surface].members else map[]
  }

  function AliasesOf(cli: Fields): seq<Json> {
    if "aliases" in cli && cli["aliases"].Arr? then cli["aliases"].items else []
  }

  function ShownAt(op: Fields, at: Place): Option<Projection> {
    var cli, mcp := Surface(op, "cli"), Surface(op, "mcp");
    match at
    case Path => if "path" in cli && cli["path"].Str? then Some(CliPath(cli["path"].s)) else None
    case Alias(i) =>
      if i < |AliasesOf(cli)| && AliasesOf(cli)[i].Obj? && "path" in AliasesOf(cli)[i].members && AliasesOf(cli)[i].members["path"].Str?
      then Some(CliPath(AliasesOf(cli)[i].members["path"].s)) else None
    case Tool => if "tool" in mcp && mcp["tool"].Str? then Some(McpTool(mcp["tool"].s)) else None
    case Resource => if "resource" in mcp && mcp["resource"].Str? then Some(McpResource(mcp["resource"].s)) else None
  }

  lemma AppendApart(ps: seq<Projection>, qs: seq<Projection>)
    ensures NoRepeat(ps + qs) <==> NoRepeat(ps) && NoRepeat(qs) && Apart(ps, qs)
  {
    var all := ps + qs;
    if NoRepeat(all) {
      assert forall i :: 0 <= i < |ps| ==> all[i] == ps[i];
      assert forall j :: 0 <= j < |qs| ==> all[|ps| + j] == qs[j];
      assert forall i, j :: 0 <= i < |ps| && 0 <= j < |qs| ==> ps[i] != qs[j];
    }
    if NoRepeat(ps) && NoRepeat(qs) && Apart(ps, qs) {
      forall i, j | 0 <= i < j < |all| ensures all[i] != all[j] {
        if j < |ps| {
          assert ps[i] != ps[j];
        } else if i < |ps| {
          assert ps[i] in ps && qs[j - |ps|] in qs;
        } else {
          assert qs[i - |ps|] != qs[j - |ps|];
        }
      }
    }
  }

  function AliasShown(alias: Json): Option<Projection> {
    if alias.Obj? && "path" in alias.members && alias.members["path"].Str? then Some(CliPath(alias.members["path"].s)) else None
  }

  lemma {:induction false} AliasesShown(aliases: seq<Json>)
    ensures forall p :: p in AliasPaths(aliases) <==> exists i :: 0 <= i < |aliases| && AliasShown(aliases[i]) == Some(p)
    ensures NoRepeat(AliasPaths(aliases)) <==>
      forall i, j :: 0 <= i < j < |aliases| && AliasShown(aliases[i]).Some? ==> AliasShown(aliases[i]) != AliasShown(aliases[j])
  {
    if aliases != [] {
      var rest := aliases[1..];
      AliasesShown(rest);
      var head := AliasShown(aliases[0]);
      var first := if head.Some? then [head.value] else [];
      assert AliasPaths(aliases) == first + AliasPaths(rest);
      AppendApart(first, AliasPaths(rest));
      assert forall i :: 0 <= i < |rest| ==> rest[i] == aliases[i + 1];
      assert forall p :: p in AliasPaths(rest) <==> exists i :: 0 < i < |aliases| && AliasShown(aliases[i]) == Some(p) by {
        forall i | 0 < i < |aliases| ensures aliases[i] == rest[i - 1] {}
      }
      assert NoRepeat(first);
    }
  }

  /** No two places of the operation answer to the same. */
  ghost predicate PlacesApart(op: Fields) {
    forall q, r :: ShownAt(op, q).Some? && ShownAt(op, q) == ShownAt(op, r) ==> q == r
  }

  /** A path followed by those of the aliases. */
  lemma PathThenAliases(path: Option<Projection>, aliases: seq<Json>, ps: seq<Projection>)
    requires ps == (if path.Some? then [path.value] else []) + AliasPaths(aliases)
    ensures forall p :: p in ps <==> path == Some(p) || exists i :: 0 <= i < |aliases| && AliasShown(aliases[i]) == Some(p)
    ensures NoRepeat(ps) <==>
      && (forall i, j :: 0 <= i < j < |aliases| && AliasShown(aliases[i]).Some? ==> AliasShown(aliases[i]) != AliasShown(aliases[j]))
      && (forall i :: 0 <= i < |aliases| && path.Some? ==> AliasShown(aliases[i]) != path)
  {
    hide AliasShown, AliasPaths;
    AliasesShown(aliases);
    var first := if path.Some? then [path.value] else [];
    AppendApart(first, AliasPaths(aliases));
    assert NoRepeat(first);
  }

  lemma CliParts(op: Fields)
    ensures var cli := Surface(op, "cli");
      && CliProjections(cli) == (if ShownAt(op, Path).Some? then [ShownAt(op, Path).value] else []) + AliasPaths(AliasesOf(cli))
      && forall i: nat :: ShownAt(op, Alias(i)) == if i < |AliasesOf(cli)| then AliasShown(AliasesOf(cli)[i]) else None
  {
    hide Surface;
    assert AliasPaths([]) == [];
  }

  lemma CliShown(op: Fields)
    ensures forall p :: p in CliProjections(Surface(op, "cli")) <==>
      ShownAt(op, Path) == Some(p) || exists i: nat :: ShownAt(op, Alias(i)) == Some(p)
    ensures NoRepeat(CliProjections(Surface(op, "cli"))) <==> PlacesNoted(op)
  {
    hide Surface, ShownAt, CliProjections, AliasPaths, AliasShown, NoRepeat, AliasesOf;
    var aliases, path := AliasesOf(Surface(op, "cli")), ShownAt(op, Path);
    CliParts(op);
    PathThenAliases(path, aliases, CliProjections(Surface(op, "cli")));
    forall p ensures (exists i :: 0 <= i < |aliases| && AliasShown(aliases[i]) == Some(p)) <==> exists i: nat :: ShownAt(op, Alias(i)) == Some(p) {
      if i :| 0 <= i < |aliases| && AliasShown(aliases[i]) == Some(p) {
        assert ShownAt(op, Alias(i)) == Some(p);
      }
    }
    if PlacesNoted(op) {
      forall i, j | 0 <= i < j < |aliases| && AliasShown(aliases[i]).Some? ensures AliasShown(aliases[i]) != AliasShown(aliases[j]) {
        assert ShownAt(op, Alias(i)) == AliasShown(aliases[i]) && ShownAt(op, Alias(j)) == AliasShown(aliases[j]);
      }
      forall i | 0 <= i < |aliases| && path.Some? ensures AliasShown(aliases[i]) != path {
        assert ShownAt(op, Alias(i)) == AliasShown(aliases[i]);
      }
    }
  }

  lemma McpShown(mcp: Fields, op: Fields)
    requires mcp == Surface(op, "mcp")
    ensures forall p :: p in McpProjections(mcp) <==> ShownAt(op, Tool) == Some(p) || ShownAt(op, Resource) == Some(p)
    ensures NoRepeat(McpProjections(mcp))
  {
    hide Surface;
  }

  lemma NothingShown()
    ensures CliProjections(map[]) == [] && McpProjections(map[]) == []
  {}

  lemma ProjectionsAre(op: Fields)
    ensures Projections(op) == CliProjections(Surface(op, "cli")) + McpProjections(Surface(op, "mcp"))
  {
    hide CliProjections, McpProjections;
    NothingShown();
    assert [] + McpProjections(Surface(op, "mcp")) == McpProjections(Surface(op, "mcp"));
    assert CliProjections(Surface(op, "cli")) + [] == CliProjections(Surface(op, "cli"));
  }

  /** The projections of an operation are what its places show, each as often as a place shows it. */
  lemma ProjectionsShown(op: Fields)
    ensures forall p :: p in Projections(op) <==> exists q :: ShownAt(op, q) == Some(p)
    ensures NoRepeat(Projections(op)) <==> PlacesApart(op)
  {
    hide ShownAt, Surface, Projections, CliProjections, McpProjections;
    var cli, mcp := CliProjections(Surface(op, "cli")), McpProjections(Surface(op, "mcp"));
    ProjectionsAre(op);
    CliShown(op);
    McpShown(Surface(op, "mcp"), op);
    AppendApart(cli, mcp);
    PlaceKinds(op);
    forall p ensures p in cli + mcp <==> exists q :: ShownAt(op, q) == Some(p) {
      if q :| ShownAt(op, q) == Some(p) {
        match q case Path => case Alias(i) => case Tool => case Resource =>
      }
    }
    assert Apart(cli, mcp);
    forall q, r | PlacesNoted(op) && ShownAt(op, q).Some? && ShownAt(op, q) == ShownAt(op, r) ensures q == r {
      match q case Path => case Alias(i) => case Tool => case Resource =>
    }
  }

  /** Command paths are apart, as NoRepeat of them says. */
  ghost predicate PlacesNoted(op: Fields) {
    && (forall i: nat, j: nat :: ShownAt(op, Alias(i)).Some? && ShownAt(op, Alias(i)) == ShownAt(op, Alias(j)) ==> i == j)
    && (forall i: nat :: ShownAt(op, Path).Some? ==> ShownAt(op, Alias(i)) != ShownAt(op, Path))
  }

  lemma PlaceKinds(op: Fields)
    ensures forall q :: ShownAt(op, q).Some? ==>
      && (q.Path? || q.Alias? <==> ShownAt(op, q).value.CliPath?)
      && (q.Tool? <==> ShownAt(op, q).value.McpTool?) && (q.Resource? <==> ShownAt(op, q).value.McpResource?)
  {
    hide Surface;
  }

  /** The catalog check asks that no two places of any operations name the same command path, tool or resource. */
  lemma UnambiguousIff(ops: Operations)
    ensures Unambiguous(ops, ops.Keys) <==>
      forall m, n, q, r :: m in ops && n in ops && ShownAt(ops[m], q).Some? && ShownAt(ops[m], q) == ShownAt(ops[n], r) ==>
        m == n && q == r
  {
    hide ShownAt, Projections, NoRepeat;
    forall n | n in ops
      ensures NoRepeat(Projections(ops[n])) <==> PlacesApart(ops[n])
      ensures forall p :: p in Projections(ops[n]) <==> exists q :: ShownAt(ops[n], q) == Some(p)
    {
      ProjectionsShown(ops[n]);
    }
    if Unambiguous(ops, ops.Keys) {
      forall m, n, q, r | m in ops && n in ops && ShownAt(ops[m], q).Some? && ShownAt(ops[m], q) == ShownAt(ops[n], r)
        ensures m == n && q == r
      {
        var p := ShownAt(ops[m], q).value;
        assert ShownAt(ops[n], r) == Some(p);
        assert p in Projections(ops[m]) && p in Projections(ops[n]);
        assert m != n ==> Apart(Projections(ops[m]), Projections(ops[n]));
        assert PlacesApart(ops[m]);
      }
    }
  }

  // ----- exactly when a comparison is silent -----

  /** The operations are a list of objects with text names, each name once. */
  predicate NamedOperations(catalog: Fields) {
    && "operations" in catalog && catalog["operations"].Arr?
    && var ops := catalog["operations"].items;
    && (forall i :: 0 <= i < |ops| ==> ops[i].Obj? && "name" in ops[i].members && ops[i].members["name"].Str?)
    && (forall i, j :: 0 <= i < j < |ops| ==> ops[i].members["name"] != ops[j].members["name"])
  }

  /** The command groups are a list of objects with text paths, each path once. */
  predicate Grouped(value: Json) {
    && value.Arr?
    && (forall i :: 0 <= i < |value.items| ==>
          value.items[i].Obj? && "path" in value.items[i].members && value.items[i].members["path"].Str?)
    && (forall i, j :: 0 <= i < j < |value.items| ==> value.items[i].members["path"] != value.items[j].members["path"])
  }

  predicate PathRaises(value: Json) {
    value.Arr? && exists row :: row in value.items && row.Obj? && "path" in row.members && (row.members["path"].Arr? || row.members["path"].Obj?)
  }

  /** A top-level field stays as it is; command groups may be joined by others. */
  ghost predicate FieldStays(key: string, x: Json, y: Json) {
    if key == "cli_parents" then
      !PathRaises(x) && !PathRaises(y) && if Grouped(x) && Grouped(y) then forall row :: row in x.items ==> row in y.items else x == y
    else x == y
  }

  /** No two places of any operations in the list name the same command path, tool or resource. */
  ghost predicate AllApart(ops: seq<Json>)
    requires forall i :: 0 <= i < |ops| ==> ops[i].Obj?
  {
    forall i, j, q, r ::
      0 <= i < |ops| && 0 <= j < |ops| && ShownAt(ops[i].members, q).Some? && ShownAt(ops[i].members, q) == ShownAt(ops[j].members, r) ==>
        i == j && q == r
  }

  /** One published operation and what came of it. */
  ghost predicate Survives(op: Fields, later: Fields, pushDraft: bool)
    requires "name" in op && op["name"].Str?
  {
    && "name" in later && later["name"] == op["name"]
    && ((op["name"].s == "host.provision" && pushDraft)
        || (!StripRaises(op["name"].s, op) && !StripRaises(op["name"].s, later) && OperationAlike(op["name"].s, op, later)))
  }

  lemma FieldStaysIff(key: string, x: Json, y: Json)
    ensures FieldKept(key, x, y) <==> FieldStays(key, x, y)
  {
    PathsIff(x);
    PathsIff(y);
    assert AllPathed(x) == Grouped(x) && AllPathed(y) == Grouped(y);
  }

  lemma PathsIff(value: Json)
    ensures PathsHashable(value) <==> !PathRaises(value)
  {
    if row :| value.Arr? && row in value.items && row.Obj? && "path" in row.members && !Hashable(row.members["path"]) {
      var i :| 0 <= i < |value.items| && value.items[i] == row;
    }
  }

  lemma KeptSurvives(name: string, op: Fields, later: Fields, pushDraft: bool)
    requires "name" in op && op["name"] == Str(name) && "name" in later && later["name"] == Str(name)
    ensures OperationKept(name, op, later, pushDraft) <==> Survives(op, later, pushDraft)
  {
    hide Strip, StripRaises, OperationAlike;
    StripRaisesIff(name, op);
    StripRaisesIff(name, later);
    if Strip(name, op).Some? && Strip(name, later).Some? {
      StripIffAlike(name, op, later);
    }
  }

  /** The list and its index by name. */
  lemma IndexIsList(catalog: Fields)
    requires NamedOperations(catalog)
    ensures var items, ops := catalog["operations"].items, OperationsOf(catalog);
      && (forall i :: 0 <= i < |items| ==> items[i].members["name"].s in ops && ops[items[i].members["name"].s] == items[i].members)
      && (forall n :: n in ops ==> "name" in ops[n] && ops[n]["name"] == Str(n) && Obj(ops[n]) in items)
  {
    hide Indexed;
    var items := catalog["operations"].items;
    assert AllNamed(items);
    IndexedAll(items);
    forall i | 0 <= i < |items| ensures items[i].members["name"].s == NameOf(items[i]) {}
    forall n | n in OperationsOf(catalog)
      ensures var op := OperationsOf(catalog)[n]; "name" in op && op["name"] == Str(n) && Obj(op) in items
    {
      IndexedName(items, n);
      LaterName(items, n);
    }
  }

  lemma AllApartIff(catalog: Fields)
    requires NamedOperations(catalog)
    ensures AllApart(catalog["operations"].items) <==> Unambiguous(OperationsOf(catalog), OperationsOf(catalog).Keys)
  {
    hide ShownAt, Unambiguous, OperationsOf;
    var items, ops := catalog["operations"].items, OperationsOf(catalog);
    IndexIsList(catalog);
    UnambiguousIff(ops);
    if AllApart(items) {
      forall m, n, q, r | m in ops && n in ops && ShownAt(ops[m], q).Some? && ShownAt(ops[m], q) == ShownAt(ops[n], r)
        ensures m == n && q == r
      {
        var i :| 0 <= i < |items| && items[i] == Obj(ops[m]);
        var j :| 0 <= j < |items| && items[j] == Obj(ops[n]);
      }
    }
  }

  lemma NamedIff(catalog: Fields)
    ensures OperationsOk(catalog) <==> NamedOperations(catalog)
  {}

  /** Every published operation has its survivor, on the lists and on the indexes by name. */
  lemma SurvivorsIff(before: Fields, after: Fields, pushDraft: bool)
    requires NamedOperations(before) && NamedOperations(after)
    ensures (forall op :: op in before["operations"].items ==>
               exists later :: later in after["operations"].items && Survives(op.members, later.members, pushDraft)) <==>
      forall n :: n in OperationsOf(before) ==>
        n in OperationsOf(after) && OperationKept(n, OperationsOf(before)[n], OperationsOf(after)[n], pushDraft)
  {
    hide OperationsOf, OperationKept, StripRaises, OperationAlike;
    var past, cur := OperationsOf(before), OperationsOf(after);
    IndexIsList(before);
    IndexIsList(after);
    if forall n :: n in past ==> n in cur && OperationKept(n, past[n], cur[n], pushDraft) {
      forall op | op in before["operations"].items
        ensures exists later :: later in after["operations"].items && Survives(op.members, later.members, pushDraft)
      {
        var n := op.members["name"].s;
        KeptSurvives(n, past[n], cur[n], pushDraft);
        assert Survives(op.members, Obj(cur[n]).members, pushDraft);
      }
    }
    if forall op :: op in before["operations"].items ==>
      exists later :: later in after["operations"].items && Survives(op.members, later.members, pushDraft) {
      forall n | n in past ensures n in cur && OperationKept(n, past[n], cur[n], pushDraft) {
        assert Obj(past[n]) in before["operations"].items;
        var later :| later in after["operations"].items && Survives(Obj(past[n]).members, later.members, pushDraft);
        assert cur[n] == later.members;
        KeptSurvives(n, past[n], cur[n], pushDraft);
      }
    }
  }

  /** A comparison is silent exactly when the top-level fields stay, the version does not move back within its major
      number, both lists name each operation once, the later places are apart, and every operation survives. */
  lemma CompatibleIff(before: Fields, after: Fields, pushDraft: bool)
    ensures Compatible(before, after, pushDraft) <==>
      && (forall key :: key != "operations" && key != "catalog_version" ==>
            (key in before <==> key in after) && (key in before ==> FieldStays(key, before[key], after[key])))
      && (exists major, minor, patch, minor', patch' ::
            && VersionIs(before, major, minor, patch) && VersionIs(after, major, minor', patch')
            && (minor < minor' || (minor == minor' && patch <= patch')))
      && NamedOperations(before) && NamedOperations(after) && AllApart(after["operations"].items)
      && forall op :: op in before["operations"].items ==>
           exists later :: later in after["operations"].items && Survives(op.members, later.members, pushDraft)
  {
    hide FieldKept, FieldStays, VersionKept, VersionIs, OperationsOk, NamedOperations, AllApart, Survives, Unambiguous, OperationsOf, OperationKept;
    FieldsIff(before, after);
    VersionKeptIff(before, after);
    NamedIff(before);
    NamedIff(after);
    if NamedOperations(before) && NamedOperations(after) {
      AllApartIff(after);
      SurvivorsIff(before, after, pushDraft);
    }
  }

  lemma FieldsIff(before: Fields, after: Fields)
    ensures OtherKeys(before) == OtherKeys(after) && (forall key :: key in OtherKeys(before) ==> FieldKept(key, before[key], after[key])) <==>
      forall key :: key != "operations" && key != "catalog_version" ==>
        (key in before <==> key in after) && (key in before ==> FieldStays(key, before[key], after[key]))
  {
    hide FieldKept, FieldStays;
    forall x, y, key ensures FieldKept(key, x, y) <==> FieldStays(key, x, y) { FieldStaysIff(key, x, y); }
    assert forall key :: key in OtherKeys(before) <==> key in before && key != "operations" && key != "catalog_version";
    assert forall key :: key in OtherKeys(after) <==> key in after && key != "operations" && key != "catalog_version";
  }
}
