/** The layering half of the import checker: the role of a module, the edges each role may have,
    and what that says about import paths of any length. */
module ImportLayers {
  import opened Wrappers
  import opened Graphs
  import opened ImportCycles

  datatype Kind =
    | Domain | Contracts | Application
    | Kernel | KernelContracts
    | Adapter | Integration | Bootstrap
    | Legacy | External

  datatype Role = Role(kind: Kind, owner: string, public: bool)

  /** The parts of a dotted name. */
  function Split(name: string): (parts: seq<string>)
    ensures |parts| > 0
  {
    if name == "" then [""]
    else
      var rest := Split(name[1..]);
      if name[0] == '.' then [""] + rest else [[name[0]] + rest[0]] + rest[1..]
  }

  function IndexOf(parts: seq<string>, part: string): (i: nat)
    ensures i <= |parts| && (i < |parts| ==> parts[i] == part)
    ensures forall j :: 0 <= j < i ==> parts[j] != part
  {
    if parts == [] || parts[0] == part then 0 else 1 + IndexOf(parts[1..], part)
  }

  predicate NoPrivatePart(parts: seq<string>) {
    forall i :: 0 <= i < |parts| ==> !("_" <= parts[i])
  }

  function LayerNamed(name: string): Kind {
    if name == "domain" then Domain
    else if name == "contracts" then Contracts
    else if name == "application" then Application
    else Legacy
  }

  predicate IsLayer(kind: Kind) {
    kind.Domain? || kind.Contracts? || kind.Application?
  }

  /** The role of a module by the parts of its name below the package. */
  function RoleBelow(tail: seq<string>): Role {
    if |tail| >= 3 && tail[0] == "modules" && !LayerNamed(tail[2]).Legacy? then
      Role(LayerNamed(tail[2]), tail[1], NoPrivatePart(tail[3..]))
    else if |tail| >= 2 && tail[0] == "kernel" then
      if |tail| >= 3 && tail[2] == "contracts" then Role(KernelContracts, tail[1], NoPrivatePart(tail[3..]))
      else Role(Kernel, tail[1], NoPrivatePart(tail[2..]))
    else if |tail| >= 2 && tail[0] == "adapters" then Role(Adapter, tail[1], NoPrivatePart(tail[2..]))
    else if |tail| >= 2 && tail[0] == "integrations" then Role(Integration, tail[1], NoPrivatePart(tail[2..]))
    else if |tail| >= 1 && tail[0] == "bootstrap" then Role(Bootstrap, "bootstrap", true)
    else Role(Legacy, "legacy", true)
  }

  function RoleOf(m: Module): Role {
    var parts := Split(m);
    var root := IndexOf(parts, "beadhive");
    if root == |parts| then Role(External, "", true) else RoleBelow(parts[root + 1..])
  }

  const FORBIDDEN_EXTERNAL_PREFIXES := [
    "fastmcp", "gidgethub", "github", "githubkit", "herdr", "httpx", "opentelemetry", "starlette", "typer", "uvicorn"]
  const FORBIDDEN_LEGACY_PREFIXES := [
    "beadhive.cli", "beadhive.gateway_read", "beadhive.herdr_", "beadhive.host_daemon", "beadhive.mcp",
    "beadhive.operator_api", "beadhive.operator_sse", "beadhive.otel", "beadhive.plugins", "beadhive.frame_bridge"]
  const ROOT_FORBIDDEN_SDKS := ["githubkit", "gidgethub", "github"]
  const LEAF_MODULES := {"tracker"}
  const CONSUMER_EXCLUSIONS := map["intake" := {"work", "planning"}]

  predicate EndsWith(s: string, suffix: string) {
    |suffix| <= |s| && s[|s| - |suffix|..] == suffix
  }

  predicate IsForbiddenRuntime(symbol: string) {
    || (exists p :: p in FORBIDDEN_EXTERNAL_PREFIXES && p <= symbol)
    || (exists p :: p in FORBIDDEN_LEGACY_PREFIXES && p <= symbol)
    || (var parts := Split(symbol); |parts| >= 2 && parts[0] == "beadhive" && EndsWith(parts[1], "_plugin"))
  }

  predicate IsRootForbiddenSdk(symbol: string) {
    Split(symbol)[0] in ROOT_FORBIDDEN_SDKS
  }

  predicate LeafViolation(importer: Role, imported: Role) {
    && importer.owner in LEAF_MODULES && IsLayer(importer.kind)
    && (imported.kind.Contracts? || imported.kind.Application?) && imported.owner != importer.owner
  }

  predicate ConsumerViolation(importer: Role, imported: Role) {
    && IsLayer(importer.kind) && IsLayer(imported.kind)
    && importer.owner in CONSUMER_EXCLUSIONS && imported.owner in CONSUMER_EXCLUSIONS[importer.owner]
  }

  predicate IsPublicContract(r: Role) {
    (r.kind.Contracts? || r.kind.KernelContracts?) && r.public
  }

  predicate IsPublicInner(r: Role) {
    (IsLayer(r.kind) || r.kind.Kernel? || r.kind.KernelContracts?) && r.public
  }

  predicate DirectionAllowed(importer: Role, imported: Role) {
    if imported.kind.External? then true
    else if imported.kind.Legacy? then false
    else
      var own := imported.owner == importer.owner;
      match importer.kind
      case Domain => imported.kind.Domain? && own
      case Contracts => (own && (imported.kind.Domain? || imported.kind.Contracts?)) || IsPublicContract(imported)
      case Application => (own && IsLayer(imported.kind)) || IsPublicContract(imported)
      case KernelContracts => IsPublicContract(imported)
      case Kernel => (own && (imported.kind.Kernel? || imported.kind.KernelContracts?)) || IsPublicContract(imported)
      case Adapter => IsPublicInner(imported) || (imported.kind.Adapter? && own)
      case Integration => IsPublicInner(imported) || (imported.kind.Integration? && own)
      case Bootstrap => !imported.kind.Bootstrap? || own
      case Legacy => true
      case External => true
  }

  datatype Rule = RuntimeImport | TrackerSdk | LeafModule | ConsumerModule | Direction

  /** The first rule an imported symbol breaks. */
  function Broken(importer: Role, imported: Role, symbol: string): Option<Rule> {
    if IsLayer(importer.kind) && IsForbiddenRuntime(symbol) then Some(RuntimeImport)
    else if IsRootForbiddenSdk(symbol) then Some(TrackerSdk)
    else if LeafViolation(importer, imported) then Some(LeafModule)
    else if ConsumerViolation(importer, imported) then Some(ConsumerModule)
    else if !DirectionAllowed(importer, imported) then Some(Direction)
    else None
  }

  datatype BoundaryKey = BoundaryKey(importerPath: string, importer: Module, imported: Module, symbol: string)
  datatype BoundaryError =
    | Forbidden(rule: Rule, key: BoundaryKey)
    | Unverifiable(importer: Module)
    | StaleBoundary(key: BoundaryKey)

  function SymbolKey(e: ImportEdge, symbol: string): BoundaryKey {
    BoundaryKey(e.importerPath, e.importer, e.imported, symbol)
  }

  /** The rule one symbol of an edge breaks; a legacy importer answers for SDKs only. */
  function BrokenBy(e: ImportEdge, symbol: string): Option<Rule> {
    if RoleOf(e.importer).kind.Legacy? then
      if IsRootForbiddenSdk(symbol) then Some(TrackerSdk) else None
    else Broken(RoleOf(e.importer), RoleOf(e.imported), symbol)
  }

  /** An exception excuses a symbol, except in a legacy importer. */
  predicate Excused(e: ImportEdge, symbol: string, exceptions: set<BoundaryKey>) {
    !RoleOf(e.importer).kind.Legacy? && SymbolKey(e, symbol) in exceptions
  }

  /** Some imported symbol breaks a rule and is not excused. */
  ghost predicate Offends(edges: seq<ImportEdge>, exceptions: set<BoundaryKey>, rule: Rule, key: BoundaryKey) {
    exists e, s :: e in edges && s in e.symbols && BrokenBy(e, s) == Some(rule)
      && !Excused(e, s, exceptions) && key == SymbolKey(e, s)
  }

  /** An exception some symbol actually needs. */
  ghost predicate Used(edges: seq<ImportEdge>, exceptions: set<BoundaryKey>, key: BoundaryKey) {
    exists e, s :: e in edges && s in e.symbols && BrokenBy(e, s).Some? && Excused(e, s, exceptions) && key == SymbolKey(e, s)
  }

  /** The boundary section of the check. `dynamic` holds the importers of nonliteral dynamic imports. */
  method CheckBoundaries(edges: seq<ImportEdge>, dynamic: seq<Module>, exceptions: set<BoundaryKey>)
    returns (errors: seq<BoundaryError>)
    ensures forall rule, key :: Forbidden(rule, key) in errors <==> Offends(edges, exceptions, rule, key)
    ensures forall m :: Unverifiable(m) in errors <==> m in dynamic && !RoleOf(m).kind.Legacy?
    ensures forall key :: StaleBoundary(key) in errors <==> key in exceptions && !Used(edges, exceptions, key)
  {
    hide BrokenBy, Excused, RoleOf;
    errors := [];
    var used: set<BoundaryKey> := {};
    for i := 0 to |edges|
      invariant forall rule, key :: Forbidden(rule, key) in errors <==> Offends(edges[..i], exceptions, rule, key)
      invariant forall key :: key in used <==> Used(edges[..i], exceptions, key)
      invariant forall x :: x in errors ==> x.Forbidden?
    {
      var more, needed := CheckEdge(edges[i], exceptions);
      assert edges[..i + 1] == edges[..i] + [edges[i]];
      OffendsAppend(edges[..i], edges[i], exceptions);
      errors := errors + more;
      used := used + needed;
    }
    assert edges[..|edges|] == edges;
    for i := 0 to |dynamic|
      invariant forall rule, key :: Forbidden(rule, key) in errors <==> Offends(edges, exceptions, rule, key)
      invariant forall m :: Unverifiable(m) in errors <==> m in dynamic[..i] && !RoleOf(m).kind.Legacy?
      invariant forall key :: StaleBoundary(key) !in errors
    {
      if !RoleOf(dynamic[i]).kind.Legacy? {
        errors := errors + [Unverifiable(dynamic[i])];
      }
    }
    var stale := StaleBoundaries(exceptions - used);
    errors := errors + stale;
  }

  method StaleBoundaries(dead: set<BoundaryKey>) returns (stale: seq<BoundaryError>)
    ensures forall x :: x in stale <==> x.StaleBoundary? && x.key in dead
  {
    stale := [];
    var left := dead;
    while left != {}
      invariant left <= dead
      invariant forall x :: x in stale <==> x.StaleBoundary? && x.key in dead && x.key !in left
      decreases left
    {
      var key :| key in left;
      stale := stale + [StaleBoundary(key)];
      left := left - {key};
    }
  }

  method CheckEdge(e: ImportEdge, exceptions: set<BoundaryKey>) returns (errors: seq<BoundaryError>, used: set<BoundaryKey>)
    ensures forall rule, key :: Forbidden(rule, key) in errors <==> Offends([e], exceptions, rule, key)
    ensures forall key :: key in used <==> Used([e], exceptions, key)
    ensures forall x :: x in errors ==> x.Forbidden?
  {
    errors, used := [], {};
    for i := 0 to |e.symbols|
      invariant forall rule, key :: Forbidden(rule, key) in errors <==>
        exists s :: s in e.symbols[..i] && BrokenBy(e, s) == Some(rule) && !Excused(e, s, exceptions) && key == SymbolKey(e, s)
      invariant forall key :: key in used <==>
        exists s :: s in e.symbols[..i] && BrokenBy(e, s).Some? && Excused(e, s, exceptions) && key == SymbolKey(e, s)
      invariant forall x :: x in errors ==> x.Forbidden?
    {
      hide BrokenBy, Excused, RoleOf;
      var s := e.symbols[i];
      assert e.symbols[..i + 1] == e.symbols[..i] + [s];
      var rule := BrokenBy(e, s);
      if rule.Some? {
        if Excused(e, s, exceptions) {
          used := used + {SymbolKey(e, s)};
        } else {
          errors := errors + [Forbidden(rule.value, SymbolKey(e, s))];
        }
      }
    }
    assert e.symbols[..|e.symbols|] == e.symbols;
  }

  lemma OffendsAppend(edges: seq<ImportEdge>, e: ImportEdge, exceptions: set<BoundaryKey>)
    ensures forall rule, key :: Offends(edges + [e], exceptions, rule, key) <==>
      Offends(edges, exceptions, rule, key) || Offends([e], exceptions, rule, key)
    ensures forall key :: Used(edges + [e], exceptions, key) <==>
      Used(edges, exceptions, key) || Used([e], exceptions, key)
  {
    hide BrokenBy, Excused, RoleOf;
    assert forall f :: f in edges + [e] <==> f in edges || f in [e];
  }

  // ----- import paths -----

  /** What a layer may reach through imports, however long the chain. */
  predicate MayReach(from: Role, to: Role) {
    match from.kind
    case Domain => to.kind.Domain? && to.owner == from.owner
    case Contracts => to.kind.Domain? || to.kind.Contracts? || to.kind.KernelContracts?
    case Application =>
      || to.kind.Domain? || to.kind.Contracts? || to.kind.KernelContracts?
      || (to.kind.Application? && to.owner == from.owner)
    case _ => true
  }

  lemma OneStepStays(from: Role, via: Role, to: Role)
    requires IsLayer(from.kind) && MayReach(from, via)
    requires DirectionAllowed(via, to) && !to.kind.External?
    ensures MayReach(from, to)
  {}

  /** The edges that need no exception. */
  function Plain(edges: seq<ImportEdge>, exceptions: set<BoundaryKey>): seq<ImportEdge> {
    if edges == [] then []
    else
      var last := edges[|edges| - 1];
      Plain(edges[..|edges| - 1], exceptions) +
      (if exists i :: 0 <= i < |last.symbols| && SymbolKey(last, last.symbols[i]) in exceptions then [] else [last])
  }

  lemma {:induction false} PlainMember(edges: seq<ImportEdge>, exceptions: set<BoundaryKey>, e: ImportEdge)
    ensures e in Plain(edges, exceptions) <==>
      e in edges && forall i :: 0 <= i < |e.symbols| ==> SymbolKey(e, e.symbols[i]) !in exceptions
  {
    if edges != [] {
      var n := |edges| - 1;
      PlainMember(edges[..n], exceptions, e);
      assert edges == edges[..n] + [edges[n]];
    }
  }

  /** If the check forbids nothing and every source module is in the package, then along imports
      that need no exception no path, of any length, takes a domain, contracts or application
      module to an adapter, integration, bootstrap, kernel-internal or legacy module or to another
      module's application layer. */
  lemma PathsKeepRoles(modules: set<Module>, edges: seq<ImportEdge>, exceptions: set<BoundaryKey>, u: Module, v: Module)
    requires forall rule, key :: !Offends(edges, exceptions, rule, key)
    requires forall m :: m in modules ==> !RoleOf(m).kind.External?
    requires forall e :: e in edges ==> |e.symbols| > 0
    requires u in modules && IsLayer(RoleOf(u).kind)
    requires Reach(GraphOf(modules, Plain(edges, exceptions)), u, v)
    ensures v in modules && MayReach(RoleOf(u), RoleOf(v))
    ensures !RoleOf(v).kind.Adapter? && !RoleOf(v).kind.Integration? && !RoleOf(v).kind.Bootstrap?
    ensures !RoleOf(v).kind.Kernel? && !RoleOf(v).kind.Legacy?
    ensures RoleOf(v).kind.Application? ==> RoleOf(v).owner == RoleOf(u).owner
  {
    hide RoleOf, DirectionAllowed, Plain, MayReach, Offends;
    var plain := Plain(edges, exceptions);
    var g := GraphOf(modules, plain);
    var inside := set m | m in modules && MayReach(RoleOf(u), RoleOf(m));
    GraphOfEdges(modules, plain);
    MayReachMeans(RoleOf(u), RoleOf(u));
    forall x, y | x in inside && HasEdge(g, x, y) ensures y in inside {
      var e :| e in plain && e.importer == x && e.imported == y;
      PlainMember(edges, exceptions, e);
      MayReachMeans(RoleOf(u), RoleOf(x));
      EdgeAllowed(edges, exceptions, e, e.symbols[0]);
      OneStepStays(RoleOf(u), RoleOf(x), RoleOf(y));
    }
    ClosedReach(g, inside, u, v);
    MayReachMeans(RoleOf(u), RoleOf(v));
  }

  lemma MayReachMeans(from: Role, to: Role)
    requires IsLayer(from.kind)
    ensures MayReach(from, from)
    ensures MayReach(from, to) ==>
      && !to.kind.Adapter? && !to.kind.Integration? && !to.kind.Bootstrap? && !to.kind.Kernel? && !to.kind.Legacy?
      && (to.kind.Application? ==> to.owner == from.owner)
  {}

  lemma EdgeAllowed(edges: seq<ImportEdge>, exceptions: set<BoundaryKey>, e: ImportEdge, s: string)
    requires forall rule, key :: !Offends(edges, exceptions, rule, key)
    requires e in edges && s in e.symbols && SymbolKey(e, s) !in exceptions && !RoleOf(e.importer).kind.Legacy?
    ensures DirectionAllowed(RoleOf(e.importer), RoleOf(e.imported))
  {
    hide RoleOf, DirectionAllowed, IsForbiddenRuntime, IsRootForbiddenSdk, LeafViolation, ConsumerViolation;
    var rule := BrokenBy(e, s);
    assert rule.Some? ==> !Offends(edges, exceptions, rule.value, SymbolKey(e, s));
  }
}
