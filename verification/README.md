# Beadhive: verified models of its release and coordination checks

Beadhive keeps work items ("beads") in a bd store, publishes activity from many processes, and guards
its own repository with release checks. This project models the parts of it whose correctness spans a
whole run or a whole graph, and proves what they promise:

- **Import-cycle and layering checker** (`Graphs`, `Tarjan`, `ImportCycles`, `ImportLayers`, `ImportNames`,
  `ImportRules`). The
  recursive strong-component search is a class that updates its index, low links, stack and component
  list in place. Its result is characterised exactly, and on top of it the certificate that a silent
  check gives: live exceptions whose removal leaves an acyclic graph. The layering rules are proved on module names
  as they are written, for single imports in both directions and for import paths of any length.
- **Wire-schema compatibility checker** (`WireSchema`, `WireValidator`, `WireCompat`, `WireWalk`,
  `WireSoundness`, `WireSettling`, `WireAdditions`). The walk over two possibly cyclic schema documents, with its error list and set of
  visited pairs, is silent exactly when a bisimulation relates the documents, and a bisimulation means
  equal verdicts of a Draft 2020-12 validator. Exactly when a property may be added, and that the old side ignores it.
- **Operation-catalog checker** (`CatalogValues`, `CatalogParams`, `Catalog`, `CatalogPromises`). Append-only comparison
  of catalogs: every difference is reported at its place, error-free steps compose, and what they keep is stated on the
  published parameter lists, command surfaces and version texts.
- **Activity outbox** (`Outbox`, `OutboxRuns`, `OutboxPublisher`, `OutboxAnswers`, with `Totals` and `Text`). Any number
  of publisher processes on one database, as a transition system over their transactions, crashes and
  clock readings, with what the counters say of the transport's answers, and the publisher's methods over the shared
  database object, which are such runs.
- **BeadLog-to-bd loader** (`BeadLog`, `BeadStore`, `BeadReader`, `BeadLoader`, `BeadConvergence`, `BeadFields`,
  `BeadSettled`, `BeadOrder`, `BeadLate`, `BeadAgain`, `BeadExamples`, `BeadOutcome`, `BeadRun`, `BeadReport`,
  `BeadScreening`, `BeadMinter`). Last-writer-wins
  facets; the reader that gives a row back as its stored events, or with a create minted for what they do not
  explain; the difference written through a coarse port; exactly when any split of the events over any number of
  loads converges; what a load does to status, labels, dependencies and fields; the screening, the loss report, and the
  read cache.
- **Nix blanking lexer** (`NixLexer`) and **release versions** (`Versions`).

`dafny verify dfyconfig.toml` checks everything.

## Where the promise does not hold as stated

- *Schemas.* The checker reads a missing `additionalProperties` as `true`, so writing the default out is
  silent; but only a written policy counts as evaluating members, so at a node with `unevaluatedProperties`,
  and at the nodes applied in place with it, the verdicts differ. `WireSoundness.SilentYetDifferent` gives
  both verdicts on every object for a whole family of such schemas. `WireSoundness.SilentMeansSameVerdict`
  is the promise from a silent comparison to equal verdicts, on the two documents, where both write the
  policy or neither does at exactly those places. That condition is sufficient; it is not necessary,
  because a difference at a node whose verdict never matters is harmless.
- *Added properties.* Where a silent comparison adds a property, the old node's own object and array keywords ignore a
  member of that name (`WireAdditions.AdditionIgnored`). Its keywords about the instance as a whole need not: a `$ref`,
  `const` or `enum` beside them may reject the member. The comparison asks nothing there beyond the two sides being alike
  (`WireAdditions.ReferenceRejects` gives both verdicts beside a reference to a closed object).
- *Outbox limits.* The check of an enqueue and its insert are not one transaction, so P publishers may
  retain P - 1 rows over what fits, and P times the byte budget. `OutboxRuns.RecordBoundReached` and
  `OutboxRuns.ByteBoundReached` show both bounds are reached, and `OutboxRuns.RecordLimitKeptIff` and
  `OutboxRuns.ByteLimitKeptIff` say exactly when the configured limits hold in every run.
- *Minted creates.* The reader gives a row back as its stored events only while their fold agrees with the whole
  row. One value entered directly in bd (a field, a label such as the identity labels an import adds, a dependency, a
  phase) and it mints a create instead, dated at the bead's creation and recorded at the row's last update, that
  holds every field the row shows. Such a create shuts out events from before the creation once any of them shows, so
  the order of loads matters: of two notes from before the creation, loaded together the later one shows, loaded one
  after the other the first one stays (`BeadExamples.EarlyOrderMatters` for every field and row that is read so,
  `BeadExamples.EarlyNotesOrderMatters` for a bead created in bd or with a label entered there).
- *Values entered directly in bd.* Labels, dependencies and phases are recorded with the row's last update too, so
  they move forward whenever the row is written, and an event that beats one wins or loses depending on what was
  written before it (`BeadOrder.NativeOrderMatters`, `BeadExamples.LabelOrderMatters`).
- *Empty text.* bd keeps no empty text in a column, and the reader drops a stored event whose value the row
  does not show. So an event that sets a column to the empty text is written again by every load, against
  the module text at src/beadhive/backfill_bd.py lines 16-17 (`BeadAgain.WritesAgainIff` says exactly when),
  and an older event of the same column that is loaded after it takes the column
  (`BeadOrder.BlankOrderMatters`, and `BeadExamples.NotesOrderMatters` for a note). An empty title passes the
  screening too, but bd refuses it and the load raises.
- *Order of loads.* Together: `BeadOrder.ConvergesIff` proves that all splits, orders and write times of a set of
  events end with the same row if and only if every facet settles, for rows whose way of being read the events cannot
  change (`BeadConvergence.Steady`, a condition on the row and the events). Beside the stored create a facet settles
  when its greatest event shows in bd or no event of it would. Beside a minted create a field settles when its greatest
  event shows and is later than the creation for good, or no event that can come to show says anything else; a native
  value settles when the greatest event beats it however late it is read, or nothing else gets the row written, or the
  event says the same.
- *Changing how a row is read.* Removing the last value that the stored events do not explain turns a row from a
  minted create back to its stored one, and events shut out before take their facets after: the order matters for
  facets nothing seemed to take, and a second load of the same batch writes (`BeadExamples.SwitchOrderMatters`). Events
  later than the creation, the stored create and the native values they touch are not affected: for these the order
  never matters, however the row is read on the way (`BeadLate.LateOrderDoesNotMatter`).
- *Rows that cannot be read back.* The reader's module text (packages/beadlog-sources/src/beadlog_sources/bd.py lines
  18-22) says that the fold of its output always equals the row. `BeadReader.ReadsBackIff` says exactly when it does; a
  bead closed, by bd's own times, before its creation comes back as nothing (`BeadReader.ClosedTooEarly`), and a load
  into it drops everything.

## Model

| member | source | states |
|---|---|---|
| `Tarjan.PushKeepsInv` | scripts/check_import_boundaries.py:330-334 | discovering a module keeps the search invariant: stack in index order, everything below reaches it, popped sets are finished components closed under imports |
| `Tarjan.CloseKeepsInv` | scripts/check_import_boundaries.py:341-342 | a visit that ends with a low link below its own index may stay on the stack: it still reaches an open module |
| `Tarjan.TopIsClosed` | scripts/check_import_boundaries.py:341-350 | when low link equals index, no import leaves the stack top except into finished components |
| `Tarjan.TopIsScc` | scripts/check_import_boundaries.py:343-350 | the modules then popped are exactly one maximal mutually reachable set |
| `Tarjan.PopKeepsInv` | scripts/check_import_boundaries.py:343-350 | popping that component keeps the invariant |
| `Tarjan.ScanSeen` | scripts/check_import_boundaries.py:339-340 | an already discovered import lowers the low link exactly when it is on the stack, and the scan invariant holds with that import done |
| `Tarjan.ScanVisited` | scripts/check_import_boundaries.py:336-338 | taking over the low link of a recursive visit keeps the scan invariant |
| `Tarjan.Search.constructor` | scripts/check_import_boundaries.py:322-327 | the search starts with nothing discovered |
| `Tarjan.Search.Visit` | scripts/check_import_boundaries.py:329-350 | a visit keeps the invariant, only extends what was there, and its low link is witnessed and bounds every stack module reachable by one edge from what it added |
| `Tarjan.Search.Enter` | scripts/check_import_boundaries.py:331-334 | the module gets the next index and goes on the stack; low links of others are untouched |
| `Tarjan.Search.Follow` | scripts/check_import_boundaries.py:335-340 | one import is handled and the scan invariant advances by it |
| `Tarjan.Search.LowerTo` | scripts/check_import_boundaries.py:338-340 | the low link becomes the smaller of the two values and nothing else changes |
| `Tarjan.Search.Leave` | scripts/check_import_boundaries.py:341-350 | either the module stays, with a witness, or its whole component is popped |
| `Tarjan.Search.PopComponent` | scripts/check_import_boundaries.py:343-350 | pops exactly the stack from the module upward as one component |
| `ImportCycles.Adjacency` | scripts/check_import_boundaries.py:318-321 | the adjacency map holds exactly the edges between source modules |
| `ImportCycles.AllComponents` | scripts/check_import_boundaries.py:352-354 | all maximal mutually reachable sets, and only those, none listed before one it reaches |
| `ImportCycles.Keeps` | scripts/check_import_boundaries.py:355-360 | a component is kept exactly when it has several modules or imports itself |
| `ImportCycles.StrongComponents` | scripts/check_import_boundaries.py:317-360 | the returned sets are exactly the cyclic components, pairwise disjoint, each after any other it can reach |
| `ImportCycles.Complete` | scripts/check_import_boundaries.py:352-360 | once all modules are discovered and no visit is open, the popped sets are all components, in that order |
| `ImportCycles.IndexComponents` | scripts/check_import_boundaries.py:367-369 | the position map names the one component of every listed module |
| `ImportCycles.SharedComponent` | scripts/check_import_boundaries.py:370-375 | the two ends of an edge share a listed component exactly when the target reaches back to the source |
| `ImportCycles.CyclicEdges` | scripts/check_import_boundaries.py:363-376 | returns the edges on cycles, in order |
| `ImportCycles.CyclicOfMember` | scripts/check_import_boundaries.py:370-375 | an edge is returned exactly when it is an edge whose target reaches its source |
| `ImportCycles.AcyclicIffNumbered` | scripts/check_import_boundaries.py:580-582 | a graph has no cyclic component exactly when modules can be numbered so that every import goes to a smaller number |
| `ImportCycles.EffectiveMember` | scripts/check_import_boundaries.py:574-579 | the effective edges are exactly those whose key is not excepted |
| `ImportCycles.StaleKeys` | scripts/check_import_boundaries.py:568-573 | reports exactly the exceptions that no edge on a cycle carries |
| `ImportCycles.CheckCycles` | scripts/check_import_boundaries.py:568-582 | no error exactly when every exception lies on a cycle of the full graph and deleting them leaves a topologically numberable graph; each error names a dead exception or a surviving cycle |
| `ImportLayers.CheckEdge` | scripts/check_import_boundaries.py:479-535 | the errors of one edge are exactly its unexcused rule breaks, and the used exceptions exactly the ones that excused something |
| `ImportLayers.CheckBoundaries` | scripts/check_import_boundaries.py:478-544 | an error for exactly each unexcused rule break, each nonliteral import outside legacy code and each exception nothing needs |
| `ImportLayers.StaleBoundaries` | scripts/check_import_boundaries.py:543-544 | one error for exactly each unused exception |
| `ImportLayers.OneStepStays` | scripts/check_import_boundaries.py:280-314 | an allowed import from anything a layer may reach leads again to something it may reach |
| `ImportLayers.EdgeAllowed` | scripts/check_import_boundaries.py:489-535 | with nothing reported, an unexcused edge from non-legacy code has an allowed direction |
| `ImportLayers.PathsKeepRoles` | scripts/check_import_boundaries.py:280-314 | with nothing reported, no import path of any length over edges without exceptions takes a domain, contracts or application module to an adapter, integration, bootstrap, kernel-internal or legacy module, or to another module's application layer |
| `ImportNames.RoleIffNamed` | scripts/check_import_boundaries.py:217-246 | a module of the package is domain, contracts or application code of an owner, kernel, kernel contracts, adapter, integration or bootstrap exactly when its dotted name lies in that package |
| `ImportNames.ExternalIff` | scripts/check_import_boundaries.py:218-222 | a module is external exactly when no part of its name is beadhive |
| `ImportNames.RoleRooted` | scripts/check_import_boundaries.py:218-223 | what comes before the package in a name does not change the role |
| `ImportNames.PublicLayers` | scripts/check_import_boundaries.py:224-236 | a layer module is public exactly when no part of its name below the layer begins with an underscore |
| `ImportNames.PublicKernel` | scripts/check_import_boundaries.py:237-241 | the same for the kernel |
| `ImportRules.LegacyIff` | scripts/check_import_boundaries.py:246 | legacy code is what lies in none of the packages with a role |
| `ImportRules.DomainImports` | scripts/check_import_boundaries.py:285-286 | a domain module may import exactly its own domain and what is outside the package |
| `ImportRules.ContractsImports` | scripts/check_import_boundaries.py:287-290 | contracts may import exactly their own domain and contracts and any public contract |
| `ImportRules.ApplicationImports` | scripts/check_import_boundaries.py:291-295 | an application may import exactly its own module's layers and any public contract |
| `ImportRules.KernelImports` | scripts/check_import_boundaries.py:296-301 | the kernel may import exactly its own package and any public contract, its contracts only the latter |
| `ImportRules.AdapterImports` | scripts/check_import_boundaries.py:302-306 | an adapter may import exactly its own package and public names of layers and kernel |
| `ImportRules.IntegrationImports` | scripts/check_import_boundaries.py:307-311 | an integration may import exactly its own package and public names of layers and kernel |
| `ImportRules.BootstrapImports` | scripts/check_import_boundaries.py:312-313 | the bootstrap may import everything but legacy code |
| `ImportRules.SdkIff` | scripts/check_import_boundaries.py:258-259 | the tracker SDKs, as roots of dotted names |
| `ImportRules.PluginIff` | scripts/check_import_boundaries.py:254-255 | top modules of the package whose names end in _plugin, and what lies below them |
| `ImportRules.RuntimeIff` | scripts/check_import_boundaries.py:249-255 | the runtime prefixes and plugins that no layer may import |
| `ImportRules.LeafIff` | scripts/check_import_boundaries.py:262-268 | the leaf rule, by names: tracker layers import no contract or application of another module |
| `ImportRules.ConsumerIff` | scripts/check_import_boundaries.py:271-277 | the consumer rule, by names: intake layers import no layer of work or planning |
| `ImportRules.UnbrokenIff` | scripts/check_import_boundaries.py:479-525 | a symbol of an edge breaks no rule exactly when the rules on names say so; legacy code answers for tracker SDKs only |
| `ImportRules.SilentEdge` | scripts/check_import_boundaries.py:524-535 | where nothing is forbidden every symbol that no exception excuses breaks no rule |
| `ImportRules.PathsStayInside` | scripts/check_import_boundaries.py:280-314 | on written names: with nothing reported, import paths of any length over edges without exceptions keep a domain module in its own domain, contracts in domains, contracts and kernel contracts, and an application in these and its own application |
| `WireSchema.NodeAtStep` | scripts/check_wire_schema_compat.py:531-588 | locations compose: the node one step further is the child there |
| `WireSchema.LocationsComplete` | scripts/check_wire_schema_compat.py:379-382 | every place a comparison can stand at is one of finitely many locations |
| `WireCompat.RawEqual` | scripts/check_wire_schema_compat.py:636-651 | a node pair without local faults agrees on every keyword that is compared raw or exactly |
| `WireCompat.SignaturesEqual` | scripts/check_wire_schema_compat.py:422-433 | and on the types and the closed-union members, up to order |
| `WireCompat.PropertiesGrow` | scripts/check_wire_schema_compat.py:435-483 | and on required names, unknown-member policy and array item policy, with no property removed |
| `WireAdditions.DescendsInto` | scripts/check_wire_schema_compat.py:509-588 | a comparison descends exactly into the properties, items, additional properties, definitions and applicators |
| `WireAdditions.FaultFreeIff` | scripts/check_wire_schema_compat.py:409-498 | two nodes have no local fault exactly when they agree on every keyword without a rule, every frozen keyword, types, enum members and marker, required names, policies and definition names, and add only properties that may be added |
| `WireAdditions.AdditionIgnored` | scripts/check_wire_schema_compat.py:654-659 | where a silent comparison adds a property, the old node's keywords other than `$ref`, type, const, enum and scalar assertions hold with a member of that name exactly when they hold without it, whatever its value |
| `WireAdditions.AdditionKeepsVerdict` | scripts/check_wire_schema_compat.py:654-659 | so the old node's verdict depends on the member at most through those keywords |
| `WireAdditions.RootAdditionIff` | scripts/check_wire_schema_compat.py:449-459 | adding a property to the root of a document whose references resolve is silent exactly when it is not required, unknown members are ignored and neither side has a keyword without a rule |
| `WireAdditions.ReferenceRejects` | scripts/check_wire_schema_compat.py:444-459 | any property may be added silently beside a `$ref` to a closed object, which rejects every member of its name |
| `WireWalk.Comparer.Report` | scripts/check_wire_schema_compat.py:384-394 | appends exactly one node's faults at its path, each once |
| `WireWalk.Comparer.CompareNode` | scripts/check_wire_schema_compat.py:365-406 | terminates on cyclic documents; whatever it reports, the place is met and everything the newly seen pairs lead to is met; each pair is visited once and the errors are exactly the faults of the visits; it raises only at equal `$ref`s that do not resolve |
| `WireWalk.Comparer.ComparePair` | scripts/check_wire_schema_compat.py:379-406 | the same for a pair of objects not seen before, which becomes seen and followed |
| `WireWalk.Comparer.CompareEach` | scripts/check_wire_schema_compat.py:454-483 | every subschema both nodes have is met, also below a reported fault |
| `WireWalk.Comparer.CompareTargets` | scripts/check_wire_schema_compat.py:397-406 | the targets of equal `$ref`s are met, or the comparison raises because one does not resolve |
| `WireWalk.WalkComplete` | scripts/check_wire_schema_compat.py:365-406 | a finished walk has seen exactly the pairs of objects reachable by common subschemas and equal `$ref`s, and told exactly the faults of the places reached |
| `WireWalk.ImageIsBisimulation` | scripts/check_wire_schema_compat.py:365-406 | without a fault anywhere the reached pairs form a bisimulation |
| `WireWalk.CompatibleIsFaultFree` | scripts/check_wire_schema_compat.py:365-406 | where some bisimulation relates the documents no reached place has a fault |
| `WireWalk.CompatibilityErrors` | scripts/check_wire_schema_compat.py:358-362 | raises exactly when a reached pair has equal `$ref`s that do not resolve; otherwise the seen pairs and the errors are complete and each pair is examined once; silent exactly when some bisimulation relates the documents |
| `WireSoundness.SameVerdict` | scripts/check_wire_schema_compat.py:358-588 | related schemas give the same verdict, at every depth of reading recursive references, on every instance that uses no newly added name; through `$ref`, `not`, `anyOf`, `oneOf`, conditionals, `contains` and the unevaluated keywords |
| `WireSoundness.SameEvaluates` | scripts/check_wire_schema_compat.py:510-520 | related schemas count the same members and items as evaluated, where members are asked for only at watched nodes |
| `WireSoundness.SilentMeansSameVerdict` | scripts/check_wire_schema_compat.py:358-362 | documents a silent comparison relates settle on the same verdict for every instance in which no object at any depth uses a newly added name, where the written policies agree at the places `unevaluatedProperties` looks in place |
| `WireSoundness.SilentYetDifferent` | scripts/check_wire_schema_compat.py:465-478 | for every flat schema closed by `unevaluatedProperties`, writing out the default policy is silent, yet the old document accepts only the empty object and the new one every object its assertions allow |
| `WireSettling.ReturnFreeSettles` | scripts/check_wire_schema_compat.py:397-406 | a document whose `$ref`s resolve and never lead, in place, back to where they came from settles on a verdict for every instance |
| `WireSettling.SilentMeansOneVerdict` | scripts/check_wire_schema_compat.py:358-362 | where the earlier document is of that kind a silent comparison means that both reach a verdict, the same one |
| `WireSettling.LoopingNeverSettles` | scripts/check_wire_schema_compat.py:397-406 | a document that is only a reference to itself settles on none |
| `CatalogValues.CompareValue` | scripts/check_wire_schema_compat.py:683-704 | appends exactly the differences below the given path, each at its own place, and nothing exactly when the values are equal |
| `CatalogValues.SilentIffEqual` | scripts/check_wire_schema_compat.py:683-704 | no place below two values differs exactly when they are the same value |
| `CatalogValues.FaultMeans` | scripts/check_wire_schema_compat.py:683-704 | each difference is what stands at its place: a field one of two objects lacks, lists of different lengths, values of different types, unequal scalars |
| `CatalogValues.CompareObjects` | scripts/check_wire_schema_compat.py:685-692 | the differences of two objects are their removed and added fields and the differences below common ones |
| `CatalogValues.CompareArrays` | scripts/check_wire_schema_compat.py:693-698 | the differences of two lists are a change of length and those below common positions |
| `CatalogParams.StripOnce` | scripts/check_wire_schema_compat.py:917-945 | dropping approved optional parameters leaves nothing more to drop, in the parameter list, the CLI list and the recovery aliases |
| `CatalogParams.StripAlike` | scripts/check_wire_schema_compat.py:903-945 | operations that are equal after dropping agree on every other field and on their remaining parameters in order |
| `Catalog.CatalogOperations` | scripts/check_wire_schema_compat.py:707-725 | indexes operations by name, silent exactly when the list holds uniquely named operations |
| `Catalog.IndexedAll` | scripts/check_wire_schema_compat.py:714-725 | the index of such a list holds every one of its operations |
| `Catalog.ProjectionUniqueness` | scripts/check_wire_schema_compat.py:730-769 | silent exactly when no two places of the catalog answer to the same command path, tool or resource |
| `Catalog.Remember` | scripts/check_wire_schema_compat.py:735-744 | reports exactly when a projection was seen before or repeats |
| `Catalog.RowsIffPathed` | scripts/check_wire_schema_compat.py:967-972 | command groups are matched by path exactly when all are objects with text paths of their own, and then the rows are the groups |
| `Catalog.CompareParents` | scripts/check_wire_schema_compat.py:958-983 | matched groups are silent exactly when every published group is still there, unchanged, in whatever position |
| `Catalog.CompareFields` | scripts/check_wire_schema_compat.py:993-1002 | silent exactly when the top-level fields are the same and each is kept |
| `Catalog.CompareOperations` | scripts/check_wire_schema_compat.py:1022-1035 | silent exactly when every published operation is present and equal up to approved parameters |
| `Catalog.CatalogCompatibilityErrors` | scripts/check_wire_schema_compat.py:986-1036 | returns without error exactly when the new catalog is compatible with the old |
| `Catalog.VersionKeptTrans` | scripts/check_wire_schema_compat.py:1004-1017 | not moving back within a major is transitive |
| `Catalog.CompatibleTrans` | scripts/check_wire_schema_compat.py:986-1036 | two compatible steps make the direct comparison compatible, up to the approved draft edit |
| `Catalog.ChainCompatible` | scripts/check_wire_schema_compat.py:986-1036 | along a chain of any length the last catalog is compatible with the first |
| `Catalog.ChainKeepsStripped` | scripts/check_wire_schema_compat.py:986-1036 | every operation of the first catalog other than host.provision is in the last, equal after dropping approved parameters, and the version never moved back |
| `CatalogPromises.ApprovedIsOptional` | scripts/check_wire_schema_compat.py:903-914 | an approved parameter is an object of exactly name, inherited privilege, required false and the approved schema |
| `CatalogPromises.OptionalIsApproved` | scripts/check_wire_schema_compat.py:903-914 | and every such object is approved |
| `CatalogPromises.ApprovedExactly` | scripts/check_wire_schema_compat.py:809-900 | which operations may gain which parameters, of text, boolean and list type |
| `CatalogPromises.ListedIff` | scripts/check_wire_schema_compat.py:919-923 | the operations that are stripped are those that may gain a parameter |
| `CatalogPromises.KeptIff` | scripts/check_wire_schema_compat.py:929-931 | two parameter lists compare equal exactly when they agree in order once approved parameters are left out |
| `CatalogPromises.StripIffAlike` | scripts/check_wire_schema_compat.py:917-945 | two operations compare equal exactly when they differ in nothing but approved parameters: in the parameter list, and by name in the command-line list and the recovery alias |
| `CatalogPromises.StripRaisesIff` | scripts/check_wire_schema_compat.py:924-945 | and where stripping raises: surfaces or a command line of the wrong kind, a parameter named by a list or an object, a list or an object in a command-line list |
| `CatalogPromises.UnapprovedStays` | scripts/check_wire_schema_compat.py:929-931 | every parameter that is not an approved optional one stays, and no other comes |
| `CatalogPromises.ChainKeepsOperation` | scripts/check_wire_schema_compat.py:986-1036 | along a chain every operation of the first catalog other than host.provision is in the last under its name, differs in nothing but approved parameters, and has exactly the same unapproved ones |
| `CatalogPromises.FieldsFrozen` | scripts/check_wire_schema_compat.py:993-1002 | every other top-level field stays as it is, none comes, and command groups may only be joined by others |
| `CatalogPromises.VersionKeptIff` | scripts/check_wire_schema_compat.py:1004-1020 | both versions are written X.Y.Z without leading zeros, the major number is kept and the version does not move back |
| `CatalogPromises.ProjectionsShown` | scripts/check_wire_schema_compat.py:746-769 | the projections of an operation are what its command path, aliases, tool and resource show |
| `CatalogPromises.UnambiguousIff` | scripts/check_wire_schema_compat.py:730-769 | no two places of any operations name the same command path, tool or resource |
| `CatalogPromises.CompatibleIff` | scripts/check_wire_schema_compat.py:984-1036 | a comparison is silent exactly when every other top-level field stays, the version does not move back within its major number, both lists name each operation once, no two later places answer to the same, and every published operation is there alike |
| `Outbox.DropBalances` | src/beadhive/activity_publisher.py:307-316 | a drop keeps the books: dropped is the sum of the reasons, expired its own entry |
| `Outbox.SettleBalances` | src/beadhive/activity_publisher.py:443-504 | a settlement keeps inserted rows equal to retained, published and dropped ones, whatever the transport answered |
| `Outbox.InsertBalances` | src/beadhive/activity_publisher.py:369-384 | an insert adds one row to both sides, or none when another process inserted the key |
| `Outbox.ReleaseBalances` | src/beadhive/activity_publisher.py:506-512 | releasing leases moves no counter and no row |
| `OutboxPublisher.Database.Increment` | src/beadhive/activity_publisher.py:299-305 | one counter goes up by one |
| `OutboxPublisher.Database.Drop` | src/beadhive/activity_publisher.py:307-316 | dropped, the reason and, for an expiry, the expired counter go up by one |
| `OutboxPublisher.Database.StoredBytes` | src/beadhive/activity_publisher.py:360-362 | the sum of the retained body sizes |
| `OutboxPublisher.ActivityPublisher.CheckEnqueue` | src/beadhive/activity_publisher.py:353-368 | the check of an enqueue: a duplicate compared by its bytes, a visible drop, or admission |
| `OutboxPublisher.ActivityPublisher.InsertChecked` | src/beadhive/activity_publisher.py:369-384 | the insert, which fails when another process inserted the key meanwhile |
| `OutboxPublisher.ActivityPublisher.EnqueueRecord` | src/beadhive/activity_publisher.py:337-387 | a visible drop, a duplicate compared by its bytes, or a new row with the bytes given and a deadline no later than its expiry |
| `OutboxPublisher.ActivityPublisher.ClaimNext` | src/beadhive/activity_publisher.py:389-425 | leases the first eligible row by next attempt and then key, or nothing when no row is eligible |
| `OutboxPublisher.ActivityPublisher.DeleteClaimed` | src/beadhive/activity_publisher.py:427-434 | deletes the row exactly when this publisher holds its lease |
| `OutboxPublisher.ActivityPublisher.SettleFlush` | src/beadhive/activity_publisher.py:444-504 | carries out the settling transaction of the outcome |
| `OutboxPublisher.ActivityPublisher.FlushOnce` | src/beadhive/activity_publisher.py:436-504 | claims the first eligible row; past expiry or deadline it is dropped, 200 and 201 publish it, no answer, 408, 429 and 500 to 599 keep it one attempt older with the same request while attempts are left, any other status drops it under its own status |
| `OutboxPublisher.ActivityPublisher.ReleaseOwnedLeases` | src/beadhive/activity_publisher.py:506-512 | clears this owner's leases and no other |
| `Text.AtMostIff` | src/beadhive/activity_publisher.py:407 | text order: a beginning comes first, otherwise the smaller character at the first difference |
| `OutboxAnswers.CountersTellAnswers` | src/beadhive/activity_publisher.py:467-504 | in every run `published` counts exactly the calls answered 200 or 201 and settled under the row's own lease, `retried` those without an answer or answered 408, 429 or 500 to 599, and the drops under any other status those it answered |
| `OutboxAnswers.BackoffDoubles` | src/beadhive/activity_publisher.py:487-490 | the wait starts at the initial backoff, doubles with every attempt and stops at the maximum |
| `OutboxAnswers.RetryWaits` | src/beadhive/activity_publisher.py:487-499 | after a failed attempt the next claim of the row that is not forced comes no earlier than the backoff after the failed attempt's clock reading |
| `OutboxAnswers.FlushIsARun` | src/beadhive/activity_publisher.py:436-504 | what one flush makes of a claim, a clock reading and an answer is what some run makes of them |
| `OutboxAnswers.EnqueueIsARun` | src/beadhive/activity_publisher.py:353-387 | the same for an enqueue |
| `OutboxRuns.InvAlways` | src/beadhive/activity_publisher.py:337-512 | every state of every run of any number of publishers keeps the invariants below |
| `OutboxRuns.Conserved` | src/beadhive/activity_publisher.py:299-316 | rows ever inserted = retained + published + dropped after insertion; dropped = sum of reasons; expired = its reason entry |
| `OutboxRuns.Retained` | src/beadhive/activity_publisher.py:353-384 | with P publishers, at most P - 1 rows more than fit by number and by size, so at most maxRecords + P - 1, and at most P times maxBytes bytes; for one, the configured limits |
| `OutboxRuns.RecordBoundReached` | src/beadhive/activity_publisher.py:360-384 | for every configuration, shortest body and P some run retains exactly that many rows |
| `OutboxRuns.ByteBoundReached` | src/beadhive/activity_publisher.py:366-384 | some run retains exactly P times maxBytes bytes, when any body fits |
| `OutboxRuns.RecordLimitKeptIff` | src/beadhive/activity_publisher.py:363-365 | the configured record limit holds in every run exactly when that bound does not exceed it; where maxRecords short bodies fit the byte budget, exactly for one publisher |
| `OutboxRuns.ByteLimitKeptIff` | src/beadhive/activity_publisher.py:366-368 | the configured byte limit holds in every run exactly for one publisher, or when no body fits |
| `OutboxRuns.AttemptsBounded` | src/beadhive/activity_publisher.py:455-504 | a retained row has fewer attempts than the limit, and exactly as many as settlements made under its lease |
| `OutboxRuns.CallsLawful` | src/beadhive/activity_publisher.py:442-465 | every transport call carried the bytes inserted for its key after a clock reading before deadline and expiry |
| `OutboxRuns.RowEvolves` | src/beadhive/activity_publisher.py:476-504 | no step lowers a row's attempts, raises them by more than one, or rewrites its request |
| `OutboxRuns.LeaseMovesForward` | src/beadhive/activity_publisher.py:407-418 | while a row stays leased the end of its lease never moves back |
| `OutboxRuns.LeaseLasts` | src/beadhive/activity_publisher.py:395-418 | as long as a claimed row stays leased its lease ends no earlier than one lease length after the claim |
| `OutboxRuns.ClaimsApart` | src/beadhive/activity_publisher.py:389-422 | two claims of a row with no release between them are at least one lease length apart |
| `OutboxRuns.ReclaimLoses` | src/beadhive/activity_publisher.py:408-418 | a claim by another publisher takes the row from a flush in progress |
| `OutboxRuns.LostForGood` | src/beadhive/activity_publisher.py:427-504 | a flush that lost its row never holds it again, and its settlement changes no row and no counter |
| `BeadLog.LeTotal` | packages/beadlog/src/beadlog/_order.py:12-30 | the ordering key is total |
| `BeadLog.LeAntisymmetric` | packages/beadlog/src/beadlog/_order.py:12-30 | only one event has a given key |
| `BeadLog.LeTransitive` | packages/beadlog/src/beadlog/_order.py:12-30 | the order of keys is transitive |
| `BeadLog.DeciderUnique` | src/beadhive/backfill_bd.py:354-378 | a facet has one decider |
| `BeadLog.Sort` | src/beadhive/backfill_bd.py:358 | the events once each, in key order |
| `BeadLog.Deciders` | src/beadhive/backfill_bd.py:354-378 | every touched facet, and no other, gets the event with the greatest key among those touching it; a checkpoint stands for existence only where nothing creates or deletes |
| `BeadStore.EdgesReached` | src/beadhive/backfill_bd.py:724-733 | exactly the target's edges remain although a removal drops every type between the pair |
| `BeadStore.LabelsAndStatusReached` | src/beadhive/backfill_bd.py:716-723 | labels and status end as the target's |
| `BeadStore.FieldReached` | src/beadhive/backfill_bd.py:700-714 | what every field ends as, including columns bd cannot write or clear |
| `BeadStore.PlanReachesTarget` | src/beadhive/backfill_bd.py:693-733 | the writes reach exactly the target if and only if bd can hold every changed column |
| `BeadStore.EmptyTextNeverSettles` | src/beadhive/backfill_bd.py:700-714 | comparing again after the writes plans nothing if and only if the target holds no empty text in a writable column other than the type |
| `BeadStore.Write` | src/beadhive/backfill_bd.py:890-920 | the port calls turn the row into what the plan says |
| `BeadStore.WriteFields` | src/beadhive/backfill_bd.py:901-914 | fields, labels and status after the update, unset and close calls |
| `BeadStore.WriteEdges` | src/beadhive/backfill_bd.py:915-918 | edges after all removals and then all additions |
| `BeadStore.BdPort.ApplyChanges` | src/beadhive/backfill_bd.py:218-239 | one update call |
| `BeadStore.BdPort.RemoveDependency` | src/beadhive/backfill_bd.py:255-257 | removes every type of dependency on the target |
| `BeadOutcome.StatusAfterLoad` | src/beadhive/backfill_bd.py:716-723 | a load whose last word on the phase is a retirement closes the bead, one whose last word sets a phase leaves it there, otherwise the status stays |
| `BeadOutcome.LabelAfterLoad` | src/beadhive/backfill_bd.py:606-691 | a label is there after a load when the last word on it adds it, gone when that removes it, and otherwise as before |
| `BeadOutcome.EdgeAfterLoad` | src/beadhive/backfill_bd.py:606-691 | the same for a dependency |
| `BeadOutcome.FieldAfterLoad` | src/beadhive/backfill_bd.py:606-691 | a field has the value the last word on it sets; empty text clears a column, but for the type |
| `BeadOutcome.OwnIff` | packages/beadlog-sources/src/beadlog_sources/bd.py:454-466 | a stored event is given back exactly while the row shows the status, label, dependency or value it says |
| `BeadOutcome.NativeIff` | packages/beadlog-sources/src/beadlog_sources/bd.py:383-445 | labels, dependencies and a status other than open are each minted as an event, recorded at the row's last update and dated as bd dates them |
| `BeadOutcome.ReadingIs` | packages/beadlog-sources/src/beadlog_sources/bd.py:468-536 | everything that is read of a row, in each way of reading it |
| `BeadOutcome.OrderWritten` | packages/beadlog/src/beadlog/_order.py:12-30 | events go by when they happened, those of unknown time last, then by when they were recorded, then by id |
| `BeadReader.BaseDecides` | packages/beadlog-sources/src/beadlog_sources/bd.py:468-536 | of everything the reader emits for a row, what the model reads of each facet has the greatest key, and nothing else is touched |
| `BeadReader.ReadsBackIff` | packages/beadlog-sources/src/beadlog_sources/bd.py:504-535 | the reader's output folds to exactly what the row shows if and only if the stored events explain it, or the phase is open or read as no earlier than a minted create; otherwise it is nothing |
| `BeadReader.ClosedTooEarly` | packages/beadlog-sources/src/beadlog_sources/bd.py:504-535 | a bead created in bd and closed by bd's own times before its creation is read as nothing |
| `BeadLoader.LoadableIdentified` | src/beadhive/backfill_bd.py:625 | a batch whose ids are unambiguous beside the stored ones never collides with what is minted |
| `BeadMinter.SomeMinterLoads` | packages/beadlog/src/beadlog/_ids.py:43-49 | every batch of acceptable events whose ids name one event each can be loaded: ids that tell all minted events apart exist for any row |
| `BeadLoader.LoadAt` | src/beadhive/backfill_bd.py:606-691 | the value and the stored event of every facet after a load of any acceptable batch, into any row that can be read back |
| `BeadLoader.OwnAfter` | packages/beadlog-sources/src/beadlog_sources/bd.py:345-379 | the stored event that the reader gives back for every facet after a load: none where bd does not show its value |
| `BeadLoader.LoadKeepsWellFormed` | src/beadhive/backfill_bd.py:606-691 | a load leaves a document keyed by facet, no empty text in a column, and a type |
| `BeadConvergence.AlongLoads` | packages/beadlog-sources/src/beadlog_sources/bd.py:504-535 | however the events are split, a steady row is read the same way throughout, and a facet whose greatest event does not beat the row keeps its value and its own event and is read no earlier |
| `BeadConvergence.GreatestHolds` | src/beadhive/backfill_bd.py:606-691 | the greatest event, if it beats the row, shows in bd and cannot be outlived by anything minted, holds its facet in the end, however the events are split, ordered and timed |
| `BeadConvergence.BlankedStays` | src/beadhive/backfill_bd.py:606-691 | beside the stored create, a field whose greatest event sets it to the empty text stays clear if no other event would show |
| `BeadConvergence.OneOrOther` | packages/beadlog-sources/src/beadlog_sources/bd.py:383-445 | a native value either outlives its greatest rival or the rival holds the facet |
| `BeadConvergence.PhaseStaysOpen` | packages/beadlog-sources/src/beadlog_sources/bd.py:412-429 | over an open phase, events that a minted create can outlive only ever say open |
| `BeadConvergence.InertWritesNothing` | src/beadhive/backfill_bd.py:682-686 | a batch that takes no facet writes nothing |
| `BeadFields.StaysOnCourse` | packages/beadlog-sources/src/beadlog_sources/bd.py:412-419 | beside a minted create, a field in which only one value can come to show is always on the way to it: it shows it, or its greatest event still wins, or nothing has been written |
| `BeadSettled.SettledValue` | src/beadhive/backfill_bd.py:606-691 | where a facet settles, every split ends with the value of its greatest event, or with the row's own |
| `BeadOrder.ConvergesIff` | src/beadhive/backfill_bd.py:606-691 | for every steady row, beads created in bd included, all splits, orders and write times of a set of acceptable events end with the same row if and only if every facet settles |
| `BeadOrder.GreatestKeyDecides` | src/beadhive/backfill_bd.py:606-691 | a facet taken by an event that shows and lasts, and any facet beside the stored create, ends with the greatest key among everything emitted and loaded |
| `BeadOrder.OrderDoesNotMatter` | src/beadhive/backfill_bd.py:606-691 | where the stored events explain the row and no event sets empty text, the order never matters and every facet ends with its greatest key |
| `BeadOrder.BlankOrderMatters` | packages/beadlog-sources/src/beadlog_sources/bd.py:345-379 | for every row and batch whose greatest event blanks a field that another event would show: both orders and their different values |
| `BeadOrder.FieldDiffers` | packages/beadlog-sources/src/beadlog_sources/bd.py:412-419 | beside a minted create every field that does not settle has two orders with different ends |
| `BeadOrder.NativeOrderMatters` | packages/beadlog-sources/src/beadlog_sources/bd.py:383-445 | for every native value whose greatest rival does not beat every reading of it and every other event that would be written: both orders and their values |
| `BeadLate.LateEnd` | packages/beadlog-sources/src/beadlog_sources/bd.py:504-535 | events later than the creation, the stored create and the native values they touch: every facet ends with the greatest key among its own event and everything loaded, even where a load changes how the row is read |
| `BeadLate.LateOrderDoesNotMatter` | packages/beadlog-sources/src/beadlog_sources/bd.py:504-535 | so the order of their loads does not matter |
| `BeadAgain.WritesAgainIff` | src/beadhive/backfill_bd.py:616-691 | into a row that is read the same way afterwards, loading the same batch again writes if and only if it sets a column to the empty text that nothing overrides, and then only writes the same again |
| `BeadExamples.NotesOrderMatters` | packages/beadlog-sources/src/beadlog_sources/bd.py:345-379 | a note and a later empty note on a bead as it was loaded: both orders |
| `BeadExamples.EarlyOrderMatters` | packages/beadlog-sources/src/beadlog_sources/bd.py:412-419 | for every row read with a minted create and every field it says nothing of: two events from before the creation end as the later one together, as the first one apart |
| `BeadExamples.EarlyNotesOrderMatters` | packages/beadlog-sources/src/beadlog_sources/bd.py:412-419 | the same for two notes on every bead created in bd itself or with a label entered there |
| `BeadExamples.LabelOrderMatters` | packages/beadlog-sources/src/beadlog_sources/bd.py:431-432 | for every label entered directly in bd and removed by a later dated event: both orders |
| `BeadExamples.SwitchOrderMatters` | packages/beadlog-sources/src/beadlog_sources/bd.py:529-535 | removing the one label entered directly in bd: together with it an early note is shut out, after it the note shows, and loading the same two again shows it too |
| `BeadRun.LoadBead` | src/beadhive/backfill_bd.py:606-691 | for every acceptable batch each event is stored already, superseded, or kept as what the document says of its facet; the counts add up; a row that cannot be read back misses the whole batch; a dry run sorts alike and writes nothing |
| `BeadRun.SortBatch` | src/beadhive/backfill_bd.py:639-650 | the new events split into kept and superseded exactly by whether they decide their facet |
| `BeadRun.CachedReadPort.ExportRows` | src/beadhive/backfill_continuous.py:143-146 | always the wrapped port's rows, with at most one export since the last write |
| `BeadRun.CachedReadPort.Write` | src/beadhive/backfill_continuous.py:148-157 | the wrapped port is written and no stale read remains |
| `BeadRun.LoadThrough` | src/beadhive/backfill_continuous.py:131-157 | a load read and written through the cache does to the store what a load does |
| `BeadRun.LoadTwice` | src/beadhive/backfill_continuous.py:131-157 | a second load through the cache, into a row that is read the same way afterwards, writes exactly when the batch sets a column to the empty text that nothing overrides |
| `BeadScreening.FieldAcceptedIff` | src/beadhive/backfill_bd.py:582-604 | which columns take which values, and which metadata keys are free |
| `BeadScreening.RefusedIff` | src/beadhive/backfill_bd.py:530-580 | an event is accepted exactly when it is of this hive and unredacted, speaks of columns and values bd takes, a known status and a target in this hive, and is no disabled delete and no tombstone; otherwise its reason |
| `BeadScreening.AliveIff` | src/beadhive/backfill_bd.py:629-638 | a bead exists exactly when its last create or delete is a create and, with neither, when the furthest checkpoint that its other events come after says so |
| `BeadScreening.LossMeans` | src/beadhive/backfill_bd.py:616-652 | what each loss code of an accepted event says, and when there is none |
| `BeadReport.ScreenedIsAcceptable` | src/beadhive/backfill_bd.py:582-604 | for an existing bead a screened ordinary change is one a load can take if and only if it is not an empty title |
| `BeadReport.PresentIsAlive` | src/beadhive/backfill_bd.py:629-638 | a bead whose row can be read back and that nothing deletes is never reported missing |
| `BeadReport.FoundIffDecides` | src/beadhive/backfill_bd.py:627-628 | an event is among the deciders found exactly when it decides some facet or vouches for existence |
| `BeadReport.Screen` | src/beadhive/backfill_bd.py:512-528 | each refused event is reported once with its reason, the others are grouped by bead in order |
| `BeadReport.PlanBead` | src/beadhive/backfill_bd.py:606-657 | from the row's emitted events and the accepted ones: an event is stored, kept because it decides something, or beaten because it decides nothing, and the document takes the kept ones in order, each under its key; refused when two events share an id |
| `BeadReport.Report` | src/beadhive/backfill_bd.py:479-510 | for distinct ids every event has one class; each dropped one is reported exactly once with its reason; each kept one is in its bead's document; loaded + dropped = events; a dry run reports the same and stores nothing |
| `BeadReport.KeptIsNamed` | src/beadhive/backfill_bd.py:653-657 | a kept event is in the document of its bead under its key; creates and checkpoints share one place, which one of them has |
| `BeadReport.ReportMeetsLoad` | src/beadhive/backfill_bd.py:606-691 | for a bead that can be read back and changes a load takes, the report's document and classes are those of the load |
| `NixLexer.NixCode` | scripts/check-channel-toolchain.py:27-95 | the loop computes the blanked text, or fails on an open comment or string |
| `NixLexer.LayoutPreserved` | scripts/check-channel-toolchain.py:27-95 | same length, every character kept or a space, newlines exactly where they were |
| `NixLexer.BlankingTwice` | scripts/check-channel-toolchain.py:27-95 | blanking is idempotent |
| `NixLexer.LineCommentBlanked` | scripts/check-channel-toolchain.py:36-42 | a line comment is blanked up to its newline, which returns to code |
| `NixLexer.BlockCommentBlanked` | scripts/check-channel-toolchain.py:43-56 | a block comment is blanked up to the mark that closes it, through comments nested to any depth |
| `NixLexer.IndentedStringBlanked` | scripts/check-channel-toolchain.py:65-72 | an indented string is blanked with its marks up to the first closing mark |
| `NixLexer.StringKept` | scripts/check-channel-toolchain.py:57-64 | a quoted string is kept whole, escapes included |
| `NixLexer.CodeKept` | scripts/check-channel-toolchain.py:86-90 | any other character of code is kept |
| `NixLexer.WrittenIsBlanked` | scripts/check-channel-toolchain.py:27-95 | a text of code, comments and closed strings that ends in code or a line comment is blanked piece by piece; one that ends in an open comment or string is refused |
| `NixLexer.EveryTextWritten` | scripts/check-channel-toolchain.py:27-95 | every text is written in such pieces with one of these endings |
| `NixLexer.BlankedIff` | scripts/check-channel-toolchain.py:27-95 | the lexer succeeds, with a given output, exactly on such texts |
| `Versions.LessIsStrictTotal` | scripts/release_transaction.py:298-299 | the PEP 440 order on these versions is strict and total |
| `Versions.ReachedIffLess` | scripts/release_transaction.py:311-328 | one or more bumps lead from one canonical version to another exactly when it is strictly less, so none repeats |
| `Versions.BaseReached` | scripts/release_transaction.py:327-328 | from a final version every later base is reached, as a final or as a first pre-release |
| `Versions.ParsesExactly` | scripts/release_transaction.py:302-308 | a text has exactly the parts it is written from, and no others |
| `Versions.ParseFormat` | scripts/release_transaction.py:302-308 | formatting a version and parsing it gives it back |
| `Versions.FormatParse` | scripts/release_transaction.py:302-308 | parsing and formatting gives the text back exactly when no part has a leading zero |
| `Versions.CheckSuccessorExact` | scripts/release_transaction.py:331-339 | the check passes exactly the canonical texts of versions one bump above |
| `Versions.ReadsAs` | scripts/release_transaction.py:298-308 | what X.Y.Z, X.Y.ZaN, X.Y.ZbN and X.Y.ZrcN are read as |
| `Versions.AcceptedTexts` | scripts/release_transaction.py:298-308 | only these four forms are read at all |
| `Versions.OrderWritten` | scripts/release_transaction.py:298-299 | at one base alphas come before betas, these before candidates, all before the final version, by number; a later base comes after everything |
| `Versions.PreSuccessors` | scripts/release_transaction.py:322-326 | the texts accepted after an alpha, a beta and a candidate |
| `Versions.FinalSuccessors` | scripts/release_transaction.py:327-328 | the twelve texts accepted after a final version |
| `Versions.ReleasesIffLess` | scripts/release_transaction.py:311-339 | some series of accepted releases leads from one text to another exactly when the second is the canonical text of a later version |

## Left out

- WireSoundness.SilentMeansSameVerdict: asks that the two sides write `additionalProperties` alike at the places `unevaluatedProperties` looks in place, because without it the claim is false; the condition is not also necessary.
- CatalogValues.CompareValue: numbers are integers and values are compared as JSON values, so Python's equality of `1` and `True` does not arise, and the order of errors is arbitrary rather than sorted.
- WireWalk.Comparer.CompareNode: reports the node's own faults before those of its subschemas, in arbitrary order, where the source interleaves them in a fixed order.
- BeadOrder.ConvergesIff: for rows whose way of being read the events cannot change; for the others only events later than the creation are covered (BeadLate), because each load may then change which of the earlier ones are shut out, and SwitchOrderMatters shows they need not converge. A row read from native values alone (its own phase event lies before its creation) is among these.
- BeadAgain.WritesAgainIff: asks that the row is read the same way after the load; SwitchOrderMatters is a second load that writes where it is not.
- BeadReport.Report: the degraded (not dropped) entries, the member path of a loss and the import record of a new bead are not modelled; an empty title, for which bd raises, is stored.
- BeadReport.KeptIsNamed: says of two creates or checkpoints kept for one bead only that one of them has their place in the document.
- OutboxPublisher.ActivityPublisher.EnqueueRecord: runs its check and its insert without other publishers in between; they are separate methods, and separate steps in OutboxRuns.
- OutboxPublisher.ActivityPublisher.FlushOnce: runs claim, transport and settlement without other publishers in between; interleavings are in OutboxRuns.
- BeadRun.LoadBead: one bead that is already in the store; whole batches are in BeadReport.
- Schema documents: the string syntax of `$ref` paths and anchors is a finite map from reference text to location, below any keyword; a reference to a value that is neither an object nor a boolean counts as unresolved. `$dynamicRef` and `$recursiveRef` are opaque assertions; scalar assertions, types and patterns are arbitrary predicates.
- Wire repository: loading releases, deprecation marks, fixtures, `git cat-file` readers, and the pairing of artifacts of two releases.
- Catalogs: whether the one approved draft edit of host.provision applies is a parameter, so nothing is claimed about that operation's contents along a chain.
- Import checker: reading source files and the exception ledger, ledger metadata, the cycle digest and the snapshot counts.
- Import checker: modules and keys are visited in arbitrary order where the source sorts, so the result holds for every order.
- Outbox: SQLite, HTTP, threads and file permissions; transactions are atomic steps and the transport's answer is arbitrary. Times are integer milliseconds. Request bodies and keys are given, not computed by hashing; that no body is shorter than some positive length is a parameter.
- Loader: new beads' import record, comments on existing rows, the deletes themselves, tombstone erasure, and the bd command line. A stored checkpoint in the place of the create, the detail entry kept beside the phase of a retired bead, and the reader's tolerance for a default priority or title that bd fills in are not modelled. An empty title is not a change a load takes, because bd raises.
- Loader: bd's own times of the phase and of dependencies stay as they are through loads, where bd dates a status it sets and a dependency it adds anew; every row has a creation time. Each load writes at a later time than the one before, as bd's clock gives it.
- Loader: ids are given, not computed by hashing: in one reading different changes get different ids, and an event of the document or the batch whose id a reading of the row gives is what that reading minted. Where two different events of a load share an id, the load is refused (BeadReport).
- Release script: `bump`, `verify`, rollback and every git call. Digits are ASCII, where the source's pattern also matches other decimal digits.
- Benchmarks, renderers, demos, command modules, configuration facades, backup retention, archive pruning and dispatch-log replay: easier than what is modelled.
