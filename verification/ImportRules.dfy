/** The layering rules written on module names, their agreement with the check, and what a silent
    check promises about single imports and about import paths of any length. */
module ImportRules {
  import opened Wrappers
  import opened Graphs
  import opened ImportCycles
  import opened ImportLayers
  import opened ImportNames

  // ----- the rules on names -----

  predicate InModule(m: Module, o: string) {
    InLayer(m, o, "domain") || InLayer(m, o, "contracts") || InLayer(m, o, "application")
  }

  predicate InContracts(m: Module, o: string) {
    InLayer(m, o, "contracts") || Under(m, "beadhive.kernel." + o + ".contracts")
  }

  ghost predicate PublicContract(m: Module) {
    exists o :: DotFree(o) && (PublicIn(m, "beadhive.modules." + o + ".contracts") || PublicIn(m, "beadhive.kernel." + o + ".contracts"))
  }

  /** Public names of the layers and of the kernel. */
  ghost predicate PublicInner(m: Module) {
    PublicContract(m)
    || exists o :: DotFree(o) && (PublicIn(m, "beadhive.modules." + o + ".domain")
         || PublicIn(m, "beadhive.modules." + o + ".application") || PublicIn(m, "beadhive.kernel." + o))
  }

  /** A module outside the package's tree. */
  predicate Outside(m: Module) {
    "beadhive" !in Split(m)
  }

  lemma PublicContractIff(m: Module)
    requires Under(m, "beadhive")
    ensures PublicContract(m) <==> IsPublicContract(RoleOf(m))
  {
    hide RoleOf, PublicIn, Under;
    forall o | DotFree(o) && (PublicIn(m, "beadhive.modules." + o + ".contracts") || PublicIn(m, "beadhive.kernel." + o + ".contracts"))
      ensures IsPublicContract(RoleOf(m))
    {
      RoleIffNamed(m, o);
      PublicLayers(m, o);
      PublicKernelContracts(m, o);
    }
    var o := RoleOf(m).owner;
    OwnerDotFree(m);
    RoleIffNamed(m, o);
    PublicLayers(m, o);
    PublicKernelContracts(m, o);
  }

  lemma PublicInnerIff(m: Module)
    requires Under(m, "beadhive")
    ensures PublicInner(m) <==> IsPublicInner(RoleOf(m))
  {
    hide RoleOf, PublicIn, Under, PublicContract;
    PublicContractIff(m);
    forall o | DotFree(o) && (PublicIn(m, "beadhive.modules." + o + ".domain")
         || PublicIn(m, "beadhive.modules." + o + ".application") || PublicIn(m, "beadhive.kernel." + o))
      ensures IsPublicInner(RoleOf(m))
    {
      RoleIffNamed(m, o);
      PublicLayers(m, o);
      PublicKernel(m, o);
    }
    var o := RoleOf(m).owner;
    OwnerDotFree(m);
    RoleIffNamed(m, o);
    PublicLayers(m, o);
    PublicKernel(m, o);
  }

  // ----- what each kind of module may import -----

  /** A name is either below the package or outside every tree of it. */
  predicate Placed(m: Module) {
    Under(m, "beadhive") || Outside(m)
  }

  lemma ImportedNamed(v: Module, o: string)
    requires Placed(v) && DotFree(o)
    ensures RoleOf(v).kind == External <==> Outside(v)
    ensures !Outside(v) ==> (PublicContract(v) <==> IsPublicContract(RoleOf(v))) && (PublicInner(v) <==> IsPublicInner(RoleOf(v)))
    ensures !Outside(v) ==>
      && (InLayer(v, o, "domain") <==> RoleOf(v).kind == Domain && RoleOf(v).owner == o)
      && (InLayer(v, o, "contracts") <==> RoleOf(v).kind == Contracts && RoleOf(v).owner == o)
      && (InLayer(v, o, "application") <==> RoleOf(v).kind == Application && RoleOf(v).owner == o)
  {
    hide RoleOf, Under, PublicContract, PublicInner;
    ExternalIff(v);
    if !Outside(v) {
      LayersNamed(v, o);
      PublicContractIff(v);
      PublicInnerIff(v);
    }
  }

  lemma LayersNamed(m: Module, o: string)
    requires Under(m, "beadhive") && DotFree(o)
    ensures InLayer(m, o, "domain") <==> RoleOf(m).kind == Domain && RoleOf(m).owner == o
    ensures InLayer(m, o, "contracts") <==> RoleOf(m).kind == Contracts && RoleOf(m).owner == o
    ensures InLayer(m, o, "application") <==> RoleOf(m).kind == Application && RoleOf(m).owner == o
  {
    hide RoleOf, Under;
    var head := "beadhive.modules." + o;
    assert head + ".domain" == head + "." + "domain" && head + ".contracts" == head + "." + "contracts"
      && head + ".application" == head + "." + "application";
    RoleIffNamed(m, o);
  }

  /** A domain module may import its own domain, and what lies outside the package. */
  lemma DomainImports(o: string, u: Module, v: Module)
    requires DotFree(o) && Under(u, "beadhive") && InLayer(u, o, "domain") && Placed(v)
    ensures DirectionAllowed(RoleOf(u), RoleOf(v)) <==> Outside(v) || InLayer(v, o, "domain")
  {
    hide RoleOf, Under, InLayer, PublicContract, PublicInner;
    LayersNamed(u, o);
    ImportedNamed(v, o);
    NotInLayer(v, o);
  }

  lemma NotInLayer(m: Module, o: string)
    ensures Outside(m) ==> !InLayer(m, o, "domain") && !InLayer(m, o, "contracts") && !InLayer(m, o, "application")
  {
    hide RoleOf, Split;
    if Outside(m) && (InLayer(m, o, "domain") || InLayer(m, o, "contracts") || InLayer(m, o, "application")) {
      assert "beadhive." <= m;
      ExternalIff(m);
    }
  }

  /** Contracts may import their own domain and contracts, and any public contract. */
  lemma ContractsImports(o: string, u: Module, v: Module)
    requires DotFree(o) && Under(u, "beadhive") && InLayer(u, o, "contracts") && Placed(v)
    ensures DirectionAllowed(RoleOf(u), RoleOf(v)) <==>
      Outside(v) || InLayer(v, o, "domain") || InLayer(v, o, "contracts") || PublicContract(v)
  {
    hide RoleOf, Under, InLayer, PublicContract, PublicInner;
    LayersNamed(u, o);
    ImportedNamed(v, o);
    NotInLayer(v, o);
  }

  /** An application may import its own module's layers, and any public contract. */
  lemma ApplicationImports(o: string, u: Module, v: Module)
    requires DotFree(o) && Under(u, "beadhive") && InLayer(u, o, "application") && Placed(v)
    ensures DirectionAllowed(RoleOf(u), RoleOf(v)) <==>
      Outside(v) || InLayer(v, o, "domain") || InLayer(v, o, "contracts") || InLayer(v, o, "application") || PublicContract(v)
  {
    hide RoleOf, Under, InLayer, PublicContract, PublicInner;
    LayersNamed(u, o);
    ImportedNamed(v, o);
    NotInLayer(v, o);
  }

  /** The kernel may import its own package and any public contract; its contracts only the latter. */
  lemma KernelImports(o: string, u: Module, v: Module)
    requires DotFree(o) && Under(u, "beadhive") && Under(u, "beadhive.kernel." + o) && Placed(v)
    ensures DirectionAllowed(RoleOf(u), RoleOf(v)) <==>
      Outside(v) || PublicContract(v)
      || (Under(v, "beadhive.kernel." + o) && !Under(u, "beadhive.kernel." + o + ".contracts"))
  {
    hide RoleOf, Under, PublicContract, PublicInner;
    RoleIffNamed(u, o);
    ImportedNamed(v, o);
    if !Outside(v) {
      RoleIffNamed(v, o);
    }
    assert "beadhive.kernel." + o == "beadhive." + "kernel" + "." + o;
    NotBelow(v, "kernel", o);
    KernelHead(u, o);
    KernelHead(v, o);
  }

  lemma KernelHead(m: Module, o: string)
    ensures Under(m, "beadhive.kernel." + o + ".contracts") ==> Under(m, "beadhive.kernel." + o)
  {
    var head := "beadhive.kernel." + o;
    assert head + ".contracts" == head + "." + "contracts";
    assert head + "." <= head + ".contracts" + ".";
  }

  lemma NotBelow(m: Module, package: string, o: string)
    ensures Outside(m) ==> !Under(m, "beadhive." + package + "." + o)
  {
    if Outside(m) && Under(m, "beadhive." + package + "." + o) {
      assert "beadhive." <= m;
      ExternalIff(m);
    }
  }

  /** An adapter may import its own package and public names of layers and kernel. */
  lemma AdapterImports(o: string, u: Module, v: Module)
    requires DotFree(o) && Under(u, "beadhive") && Under(u, "beadhive.adapters." + o) && Placed(v)
    ensures DirectionAllowed(RoleOf(u), RoleOf(v)) <==> Outside(v) || PublicInner(v) || Under(v, "beadhive.adapters." + o)
  {
    hide RoleOf, Under, PublicContract, PublicInner;
    RoleIffNamed(u, o);
    ImportedNamed(v, o);
    if !Outside(v) {
      RoleIffNamed(v, o);
    }
    assert "beadhive.adapters." + o == "beadhive." + "adapters" + "." + o;
    NotBelow(v, "adapters", o);
  }

  /** An integration may import its own package and public names of layers and kernel. */
  lemma IntegrationImports(o: string, u: Module, v: Module)
    requires DotFree(o) && Under(u, "beadhive") && Under(u, "beadhive.integrations." + o) && Placed(v)
    ensures DirectionAllowed(RoleOf(u), RoleOf(v)) <==> Outside(v) || PublicInner(v) || Under(v, "beadhive.integrations." + o)
  {
    hide RoleOf, Under, PublicContract, PublicInner;
    RoleIffNamed(u, o);
    ImportedNamed(v, o);
    if !Outside(v) {
      RoleIffNamed(v, o);
    }
    assert "beadhive.integrations." + o == "beadhive." + "integrations" + "." + o;
    NotBelow(v, "integrations", o);
  }

  /** The module is in none of the packages that have a role of their own. */
  ghost predicate InLegacy(m: Module) {
    && !Under(m, "beadhive.bootstrap")
    && forall o :: DotFree(o) ==>
         !InModule(m, o) && !Under(m, "beadhive.kernel." + o) && !Under(m, "beadhive.adapters." + o) && !Under(m, "beadhive.integrations." + o)
  }

  lemma LegacyIff(m: Module)
    requires Under(m, "beadhive")
    ensures RoleOf(m).kind == Legacy <==> InLegacy(m)
  {
    hide RoleOf, Under, InLayer;
    forall o | DotFree(o)
      ensures InModule(m, o) || Under(m, "beadhive.kernel." + o) || Under(m, "beadhive.adapters." + o) || Under(m, "beadhive.integrations." + o)
        ==> RoleOf(m).kind != Legacy
    {
      LayersNamed(m, o);
      RoleIffNamed(m, o);
    }
    OwnerDotFree(m);
    LayersNamed(m, RoleOf(m).owner);
    RoleIffNamed(m, RoleOf(m).owner);
    KernelHead(m, RoleOf(m).owner);
  }

  /** The bootstrap may import everything but legacy code. */
  lemma BootstrapImports(u: Module, v: Module)
    requires Under(u, "beadhive") && Under(u, "beadhive.bootstrap") && Placed(v)
    ensures DirectionAllowed(RoleOf(u), RoleOf(v)) <==> Outside(v) || !InLegacy(v)
  {
    hide RoleOf, Under, InLegacy;
    RoleIffNamed(u, "");
    ExternalIff(v);
    if !Outside(v) {
      LegacyIff(v);
      RoleIffNamed(v, "");
    }
    BootstrapOwner(u);
    BootstrapOwner(v);
  }

  lemma BootstrapOwner(m: Module)
    ensures RoleOf(m).kind == Bootstrap ==> RoleOf(m).owner == "bootstrap"
  {}

  // ----- symbols -----

  lemma FirstPartIs(symbol: string, root: string)
    requires DotFree(root)
    ensures Split(symbol)[0] == root <==> Under(symbol, root)
  {
    SplitDotFree(root);
    UnderParts(symbol, root);
    if Split(symbol)[0] == root {
      assert Split(symbol) == [root] + Split(symbol)[1..];
    }
  }

  /** Tracker SDKs. */
  lemma SdkIff(symbol: string)
    ensures IsRootForbiddenSdk(symbol) <==> Under(symbol, "githubkit") || Under(symbol, "gidgethub") || Under(symbol, "github")
  {
    hide Split, Under;
    FirstPartIs(symbol, "githubkit");
    FirstPartIs(symbol, "gidgethub");
    FirstPartIs(symbol, "github");
  }

  /** A top module of the package, or something below it, whose name ends in _plugin. */
  ghost predicate InPlugin(symbol: string) {
    exists stem :: DotFree(stem) && Under(symbol, "beadhive." + stem + "_plugin")
  }

  lemma SecondPartIs(symbol: string, part: string)
    requires DotFree(part)
    ensures Under(symbol, "beadhive." + part) <==> |Split(symbol)| >= 2 && Split(symbol)[0] == "beadhive" && Split(symbol)[1] == part
  {
    hide Under;
    SplitDotFree(part);
    SplitDotFree("beadhive");
    SplitDot("beadhive", part);
    assert "beadhive." + part == "beadhive" + "." + part;
    UnderParts(symbol, "beadhive." + part);
    hide Split;
    assert Split("beadhive." + part) == ["beadhive", part];
    Two("beadhive", part, Split(symbol));
  }

  lemma PluginIff(symbol: string)
    ensures InPlugin(symbol) <==>
      |Split(symbol)| >= 2 && Split(symbol)[0] == "beadhive" && EndsWith(Split(symbol)[1], "_plugin")
  {
    hide Under, Split;
    forall stem | DotFree(stem) && Under(symbol, "beadhive." + stem + "_plugin")
      ensures |Split(symbol)| >= 2 && Split(symbol)[0] == "beadhive" && Split(symbol)[1] == stem + "_plugin"
    {
      assert "beadhive." + stem + "_plugin" == "beadhive." + (stem + "_plugin");
      SecondPartIs(symbol, stem + "_plugin");
    }
    if |Split(symbol)| >= 2 && Split(symbol)[0] == "beadhive" && EndsWith(Split(symbol)[1], "_plugin") {
      var part := Split(symbol)[1];
      var stem := part[..|part| - 7];
      SplitParts(symbol);
      assert part == stem + "_plugin";
      assert "beadhive." + stem + "_plugin" == "beadhive." + part;
      SecondPartIs(symbol, part);
    }
  }

  /** What no layer may import at run time. */
  lemma RuntimeIff(symbol: string)
    ensures IsForbiddenRuntime(symbol) <==>
      || "fastmcp" <= symbol || "gidgethub" <= symbol || "github" <= symbol || "githubkit" <= symbol || "herdr" <= symbol
      || "httpx" <= symbol || "opentelemetry" <= symbol || "starlette" <= symbol || "typer" <= symbol || "uvicorn" <= symbol
      || "beadhive.cli" <= symbol || "beadhive.gateway_read" <= symbol || "beadhive.herdr_" <= symbol
      || "beadhive.host_daemon" <= symbol || "beadhive.mcp" <= symbol || "beadhive.operator_api" <= symbol
      || "beadhive.operator_sse" <= symbol || "beadhive.otel" <= symbol || "beadhive.plugins" <= symbol
      || "beadhive.frame_bridge" <= symbol || InPlugin(symbol)
  {
    hide InPlugin;
    PluginIff(symbol);
    var external := ["fastmcp", "gidgethub", "github", "githubkit", "herdr", "httpx", "opentelemetry", "starlette", "typer", "uvicorn"];
    var legacy := ["beadhive.cli", "beadhive.gateway_read", "beadhive.herdr_", "beadhive.host_daemon", "beadhive.mcp",
      "beadhive.operator_api", "beadhive.operator_sse", "beadhive.otel", "beadhive.plugins", "beadhive.frame_bridge"];
    BeginsWithOne(external, symbol);
    BeginsWithOne(legacy, symbol);
  }

  lemma BeginsWithOne(prefixes: seq<string>, symbol: string)
    requires |prefixes| == 10
    ensures (exists p :: p in prefixes && p <= symbol) <==>
      || prefixes[0] <= symbol || prefixes[1] <= symbol || prefixes[2] <= symbol || prefixes[3] <= symbol || prefixes[4] <= symbol
      || prefixes[5] <= symbol || prefixes[6] <= symbol || prefixes[7] <= symbol || prefixes[8] <= symbol || prefixes[9] <= symbol
  {
    if exists p :: p in prefixes && p <= symbol {
      var p :| p in prefixes && p <= symbol;
      var i :| 0 <= i < 10 && prefixes[i] == p;
      assert i in {0, 1, 2, 3, 4, 5, 6, 7, 8, 9};
    } else {
      assert forall i :: 0 <= i < 10 ==> prefixes[i] in prefixes;
    }
  }

  // ----- what the check reports -----

  /** The tracker module imports no contract and no application of another module. */
  ghost predicate LeafImport(u: Module, v: Module) {
    InModule(u, "tracker") && exists o :: DotFree(o) && o != "tracker" && (InLayer(v, o, "contracts") || InLayer(v, o, "application"))
  }

  /** The intake module imports no layer of the work and planning modules. */
  predicate ConsumerImport(u: Module, v: Module) {
    InModule(u, "intake") && (InModule(v, "work") || InModule(v, "planning"))
  }

  lemma InModuleIff(m: Module, o: string)
    requires Placed(m) && DotFree(o)
    ensures InModule(m, o) <==> IsLayer(RoleOf(m).kind) && RoleOf(m).owner == o
  {
    hide RoleOf, Under, InLayer;
    ExternalIff(m);
    if Outside(m) {
      NotInLayer(m, o);
    } else {
      LayersNamed(m, o);
    }
  }

  lemma LeafIff(u: Module, v: Module)
    requires Placed(u) && Placed(v)
    ensures LeafImport(u, v) <==> LeafViolation(RoleOf(u), RoleOf(v))
  {
    hide RoleOf, Under, InLayer, InModule, Placed;
    InModuleIff(u, "tracker");
    forall o | DotFree(o)
      ensures InLayer(v, o, "contracts") || InLayer(v, o, "application") <==>
        (RoleOf(v).kind == Contracts || RoleOf(v).kind == Application) && RoleOf(v).owner == o
    {
      ContractOrApplication(v, o);
    }
    OwnerOfPlaced(v);
    var o := RoleOf(v).owner;
  }

  lemma ContractOrApplication(v: Module, o: string)
    requires Placed(v) && DotFree(o)
    ensures InLayer(v, o, "contracts") || InLayer(v, o, "application") <==>
      (RoleOf(v).kind == Contracts || RoleOf(v).kind == Application) && RoleOf(v).owner == o
  {
    hide RoleOf, Under, InLayer;
    ExternalIff(v);
    if Outside(v) {
      NotInLayer(v, o);
    } else {
      LayersNamed(v, o);
    }
  }

  lemma OwnerOfPlaced(v: Module)
    requires Placed(v)
    ensures DotFree(RoleOf(v).owner)
  {
    if Under(v, "beadhive") {
      OwnerDotFree(v);
    }
  }

  lemma ConsumerIff(u: Module, v: Module)
    requires Placed(u) && Placed(v)
    ensures ConsumerImport(u, v) <==> ConsumerViolation(RoleOf(u), RoleOf(v))
  {
    hide RoleOf, Under, InLayer, InModule, Placed;
    InModuleIff(u, "intake");
    InModuleIff(v, "work");
    InModuleIff(v, "planning");
  }

  /** A symbol of an edge breaks no rule exactly when the names say so; legacy code answers for
      tracker SDKs only. */
  lemma UnbrokenIff(e: ImportEdge, s: string)
    requires Under(e.importer, "beadhive") && Placed(e.imported)
    ensures InLegacy(e.importer) ==>
      (BrokenBy(e, s).None? <==> !Under(s, "githubkit") && !Under(s, "gidgethub") && !Under(s, "github"))
    ensures !InLegacy(e.importer) ==>
      (BrokenBy(e, s).None? <==>
        && !((exists o :: DotFree(o) && InModule(e.importer, o)) && IsForbiddenRuntime(s))
        && !Under(s, "githubkit") && !Under(s, "gidgethub") && !Under(s, "github")
        && !LeafImport(e.importer, e.imported) && !ConsumerImport(e.importer, e.imported)
        && DirectionAllowed(RoleOf(e.importer), RoleOf(e.imported)))
  {
    hide RoleOf, Under, InLayer, InModule, InLegacy, DirectionAllowed, IsForbiddenRuntime, LeafImport, ConsumerImport,
      LeafViolation, ConsumerViolation, IsRootForbiddenSdk;
    LegacyIff(e.importer);
    SdkIff(s);
    LeafIff(e.importer, e.imported);
    ConsumerIff(e.importer, e.imported);
    LayerIff(e.importer);
  }

  lemma LayerIff(m: Module)
    requires Under(m, "beadhive")
    ensures IsLayer(RoleOf(m).kind) <==> exists o :: DotFree(o) && InModule(m, o)
  {
    hide RoleOf, Under, InModule;
    forall o | DotFree(o) ensures InModule(m, o) <==> IsLayer(RoleOf(m).kind) && RoleOf(m).owner == o {
      InModuleIff(m, o);
    }
    OwnerDotFree(m);
    InModuleIff(m, RoleOf(m).owner);
  }

  /** Where the check forbids nothing, every symbol that no exception excuses breaks no rule. */
  lemma SilentEdge(edges: seq<ImportEdge>, exceptions: set<BoundaryKey>, e: ImportEdge, s: string)
    requires forall rule, key :: !Offends(edges, exceptions, rule, key)
    requires e in edges && s in e.symbols && !Excused(e, s, exceptions)
    ensures BrokenBy(e, s).None?
  {
    hide BrokenBy, Excused;
    var rule := BrokenBy(e, s);
    assert rule.Some? ==> !Offends(edges, exceptions, rule.value, SymbolKey(e, s));
  }

  // ----- import paths -----

  /** If the check forbids nothing and every source module is in the package, import paths of any length over
      edges without exceptions keep a domain module in its own domain; contracts to domains, contracts and
      kernel contracts; and an application to these and to its own module's application. */
  lemma PathsStayInside(modules: set<Module>, edges: seq<ImportEdge>, exceptions: set<BoundaryKey>, u: Module, v: Module, o: string)
    requires forall rule, key :: !Offends(edges, exceptions, rule, key)
    requires forall m :: m in modules ==> Under(m, "beadhive")
    requires forall e :: e in edges ==> |e.symbols| > 0
    requires DotFree(o) && u in modules && Reach(GraphOf(modules, Plain(edges, exceptions)), u, v)
    ensures Under(u, "beadhive.modules." + o + ".domain") ==> Under(v, "beadhive.modules." + o + ".domain")
    ensures Under(u, "beadhive.modules." + o + ".contracts") ==>
      exists p :: DotFree(p) && (Under(v, "beadhive.modules." + p + ".domain")
        || Under(v, "beadhive.modules." + p + ".contracts") || Under(v, "beadhive.kernel." + p + ".contracts"))
    ensures Under(u, "beadhive.modules." + o + ".application") ==>
      || Under(v, "beadhive.modules." + o + ".application")
      || exists p :: DotFree(p) && (Under(v, "beadhive.modules." + p + ".domain")
           || Under(v, "beadhive.modules." + p + ".contracts") || Under(v, "beadhive.kernel." + p + ".contracts"))
  {
    hide RoleOf, Under, Offends, Plain, GraphOf, Reach, MayReach;
    forall m | m in modules ensures !RoleOf(m).kind.External? {
      RoleIffNamed(m, "");
    }
    RoleIffNamed(u, o);
    if IsLayer(RoleOf(u).kind) && RoleOf(u).owner == o {
      PathsKeepRoles(modules, edges, exceptions, u, v);
      MayReachRoles(RoleOf(u), RoleOf(v));
      RoleIffNamed(v, o);
      var p := RoleOf(v).owner;
      RoleIffNamed(v, p);
    }
  }

  lemma MayReachRoles(from: Role, to: Role)
    requires IsLayer(from.kind) && MayReach(from, to)
    ensures from.kind == Domain ==> to.kind == Domain && to.owner == from.owner
    ensures from.kind == Contracts ==> to.kind == Domain || to.kind == Contracts || to.kind == KernelContracts
    ensures from.kind == Application ==>
      to.kind == Domain || to.kind == Contracts || to.kind == KernelContracts || (to.kind == Application && to.owner == from.owner)
  {}
}
