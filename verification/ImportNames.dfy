/** The layering rules on the dotted names of modules as they are written, and what a silent check
    says about those names. */
module ImportNames {
  import opened Wrappers
  import opened Graphs
  import opened ImportCycles
  import opened ImportLayers

  // ----- names and their parts -----

  predicate DotFree(part: string) {
    '.' !in part
  }

  /** The module is the package or lies in it. */
  predicate Under(m: Module, package: string) {
    m == package || package + "." <= m
  }

  /** Some part of the name begins with an underscore. */
  predicate HasPrivatePart(name: string) {
    "_" <= name || exists i :: 0 <= i < |name| - 1 && name[i] == '.' && name[i + 1] == '_'
  }

  lemma {:induction false} SplitDotFree(part: string)
    requires DotFree(part)
    ensures Split(part) == [part]
  {
    if part != "" {
      SplitDotFree(part[1..]);
      assert part == [part[0]] + part[1..];
    }
  }

  lemma {:induction false} SplitDot(a: string, b: string)
    ensures Split(a + "." + b) == Split(a) + Split(b)
  {
    var name := a + "." + b;
    if a == "" {
      assert name[1..] == b;
    } else {
      assert name[1..] == a[1..] + "." + b;
      SplitDot(a[1..], b);
    }
  }

  lemma {:induction false} SplitParts(name: string)
    ensures forall i :: 0 <= i < |Split(name)| ==> DotFree(Split(name)[i])
  {
    if name != "" {
      SplitParts(name[1..]);
    }
  }

  function Join(parts: seq<string>): string
    requires parts != []
  {
    if |parts| == 1 then parts[0] else parts[0] + "." + Join(parts[1..])
  }

  lemma {:induction false} JoinSplit(name: string)
    ensures Join(Split(name)) == name
  {
    if name != "" {
      var rest := Split(name[1..]);
      JoinSplit(name[1..]);
      if name[0] == '.' {
        assert ([""] + rest)[1..] == rest;
      } else {
        assert ([[name[0]] + rest[0]] + rest[1..])[1..] == rest[1..];
      }
      assert name == [name[0]] + name[1..];
    }
  }

  lemma {:induction false} JoinBoth(a: seq<string>, b: seq<string>)
    requires a != [] && b != []
    ensures Join(a + b) == Join(a) + "." + Join(b)
  {
    if |a| > 1 {
      JoinBoth(a[1..], b);
      assert (a + b)[1..] == a[1..] + b;
    } else {
      assert (a + b)[1..] == b;
    }
  }

  /** Lying in a package is having its parts in front. */
  lemma UnderParts(m: Module, package: string)
    ensures Under(m, package) <==> Split(package) <= Split(m)
    ensures package + "." <= m ==> Split(m) == Split(package) + Split(m[|package| + 1..])
  {
    if package + "." <= m {
      var rest := m[|package| + 1..];
      assert m == package + "." + rest;
      SplitDot(package, rest);
    }
    if Split(package) <= Split(m) {
      var rest := Split(m)[|Split(package)|..];
      assert Split(m) == Split(package) + rest;
      JoinSplit(m);
      JoinSplit(package);
      if rest == [] {
        assert Split(m) == Split(package);
      } else {
        JoinBoth(Split(package), rest);
      }
    }
  }

  predicate DotThenUnderscore(name: string) {
    exists i :: 0 <= i < |name| - 1 && name[i] == '.' && name[i + 1] == '_'
  }

  lemma {:induction false} PrivateParts(name: string)
    ensures NoPrivatePart(Split(name)) <==> !HasPrivatePart(name)
  {
    LaterParts(name);
    HeadTail(Split(name));
    FirstPart(name);
    assert HasPrivatePart(name) <==> "_" <= name || DotThenUnderscore(name);
  }

  lemma {:induction false} LaterParts(name: string)
    ensures NoPrivatePart(Split(name)[1..]) <==> !DotThenUnderscore(name)
  {
    if name != "" {
      var tail := name[1..];
      var rest := Split(tail);
      LaterParts(tail);
      FirstPart(tail);
      HeadTail(rest);
      assert name == [name[0]] + tail;
      DotStep(name[0], tail);
      if name[0] == '.' {
        assert Split(name)[1..] == rest;
      } else {
        assert Split(name)[1..] == rest[1..];
      }
    }
  }

  lemma HeadTail(parts: seq<string>)
    requires parts != []
    ensures NoPrivatePart(parts) <==> !("_" <= parts[0]) && NoPrivatePart(parts[1..])
  {
    assert forall i :: 0 <= i < |parts[1..]| ==> parts[1..][i] == parts[i + 1];
    assert NoPrivatePart(parts[1..]) ==> forall i :: 0 < i < |parts| ==> parts[i] == parts[1..][i - 1];
  }

  lemma FirstPart(name: string)
    ensures "_" <= Split(name)[0] <==> "_" <= name
  {}

  lemma DotStep(c: char, tail: string)
    ensures DotThenUnderscore([c] + tail) <==> (c == '.' && "_" <= tail) || DotThenUnderscore(tail)
  {
    var name := [c] + tail;
    assert forall i :: 0 <= i < |tail| ==> name[i + 1] == tail[i];
    if DotThenUnderscore(tail) {
      var i :| 0 <= i < |tail| - 1 && tail[i] == '.' && tail[i + 1] == '_';
      assert name[i + 1] == '.' && name[i + 1 + 1] == '_';
    }
    if "_" <= tail && c == '.' {
      assert name[0] == '.' && name[0 + 1] == '_';
    }
    if DotThenUnderscore(name) {
      var i :| 0 <= i < |name| - 1 && name[i] == '.' && name[i + 1] == '_';
      if i == 0 {
        assert tail[..1] == "_";
      } else {
        assert tail[i - 1] == '.' && tail[i - 1 + 1] == '_';
      }
    }
  }

  lemma {:induction false} SplitJoin(parts: seq<string>)
    requires parts != [] && forall i :: 0 <= i < |parts| ==> DotFree(parts[i])
    ensures Split(Join(parts)) == parts
  {
    SplitDotFree(parts[0]);
    if |parts| > 1 {
      SplitDot(parts[0], Join(parts[1..]));
      SplitJoin(parts[1..]);
    }
  }

  /** The parts of a name below the package. */
  function Tail(m: Module): seq<string> {
    Split(m)[1..]
  }

  /** Lying in a package below a root is having its parts in front. */
  lemma UnderPackage(m: Module, root: string, package: string, parts: seq<string>)
    requires DotFree(root) && Split(m)[0] == root
    requires parts != [] && forall i :: 0 <= i < |parts| ==> DotFree(parts[i])
    requires package == root + "." + Join(parts)
    ensures Under(m, package) <==> parts <= Tail(m)
    ensures package + "." <= m ==> Tail(m) == parts + Split(m[|package| + 1..])
    ensures m == package ==> Tail(m) == parts
  {
    hide Under, Split, Join;
    PackageSplit(root, package, parts);
    UnderParts(m, package);
    PrefixStep(root, parts, Split(m));
    if package + "." <= m {
      TailAfter(root, parts, Split(m), Split(m[|package| + 1..]));
    }
  }

  lemma PackageSplit(root: string, package: string, parts: seq<string>)
    requires DotFree(root)
    requires parts != [] && forall i :: 0 <= i < |parts| ==> DotFree(parts[i])
    requires package == root + "." + Join(parts)
    ensures Split(package) == [root] + parts
  {
    hide Split, Join;
    SplitDotFree(root);
    SplitDot(root, Join(parts));
    SplitJoin(parts);
  }

  lemma TailAfter(head: string, parts: seq<string>, all: seq<string>, rest: seq<string>)
    requires all == ([head] + parts) + rest
    ensures all[1..] == parts + rest
  {}

  lemma PrefixStep(head: string, parts: seq<string>, all: seq<string>)
    requires |all| > 0 && all[0] == head
    ensures [head] + parts <= all <==> parts <= all[1..]
  {
    assert all == [head] + all[1..];
    if parts <= all[1..] {
      assert all[1..] == parts + all[1..][|parts|..];
      assert all == ([head] + parts) + all[1..][|parts|..];
    }
    if [head] + parts <= all {
      assert all[1..] == ([head] + parts)[1..] + all[|parts| + 1..];
    }
  }

  lemma InBeadhive(m: Module)
    requires Under(m, "beadhive")
    ensures Split(m)[0] == "beadhive" && RoleOf(m) == RoleBelow(Tail(m))
  {
    SplitDotFree("beadhive");
    UnderParts(m, "beadhive");
  }

  // ----- the role a written name has -----

  predicate InLayer(m: Module, o: string, layer: string) {
    Under(m, "beadhive.modules." + o + "." + layer)
  }

  lemma LayerParts(m: Module, o: string, layer: string)
    requires Under(m, "beadhive") && DotFree(o) && DotFree(layer)
    ensures InLayer(m, o, layer) <==> ["modules", o, layer] <= Tail(m)
    ensures var head := "beadhive.modules." + o + "." + layer;
      (m == head ==> Tail(m) == ["modules", o, layer]) && (head + "." <= m ==> Tail(m) == ["modules", o, layer] + Split(m[|head| + 1..]))
  {
    hide Under, Split, Join, RoleOf, RoleBelow, Tail;
    BeadhiveFirst(m);
    JoinThree("modules", o, layer);
    LayerSpelled(o, layer);
    UnderPackage(m, "beadhive", "beadhive.modules." + o + "." + layer, ["modules", o, layer]);
  }

  lemma LayerSpelled(o: string, layer: string)
    ensures "beadhive.modules." + o + "." + layer == "beadhive" + "." + ("modules" + "." + (o + "." + layer))
  {}

  lemma BeadhiveFirst(m: Module)
    requires Under(m, "beadhive")
    ensures Split(m)[0] == "beadhive" && DotFree("beadhive")
  {
    InBeadhive(m);
  }

  lemma JoinThree(a: string, b: string, c: string)
    ensures Join([a, b, c]) == a + "." + (b + "." + c)
  {
    assert [a, b, c][1..] == [b, c] && [b, c][1..] == [c];
    assert Join([b, c]) == b + "." + c;
  }

  lemma JoinTwo(a: string, b: string)
    ensures Join([a, b]) == a + "." + b
  {
    assert [a, b][1..] == [b];
  }

  lemma PackageParts(m: Module, package: string, o: string)
    requires Under(m, "beadhive") && DotFree(package) && DotFree(o)
    ensures Under(m, "beadhive." + package + "." + o) <==> [package, o] <= Tail(m)
    ensures var head := "beadhive." + package + "." + o;
      (m == head ==> Tail(m) == [package, o]) && (head + "." <= m ==> Tail(m) == [package, o] + Split(m[|head| + 1..]))
  {
    hide Under, Split, Join, RoleOf, RoleBelow, Tail;
    BeadhiveFirst(m);
    JoinTwo(package, o);
    PackageSpelled(package, o);
    UnderPackage(m, "beadhive", "beadhive." + package + "." + o, [package, o]);
  }

  lemma PackageSpelled(package: string, o: string)
    ensures "beadhive." + package + "." + o == "beadhive" + "." + (package + "." + o)
  {}

  lemma KernelParts(m: Module, o: string)
    requires Under(m, "beadhive") && DotFree(o)
    ensures Under(m, "beadhive.kernel." + o + ".contracts") <==> ["kernel", o, "contracts"] <= Tail(m)
    ensures var head := "beadhive.kernel." + o + ".contracts";
      (m == head ==> Tail(m) == ["kernel", o, "contracts"]) && (head + "." <= m ==> Tail(m) == ["kernel", o, "contracts"] + Split(m[|head| + 1..]))
  {
    hide Under, Split, Join, RoleOf, RoleBelow, Tail;
    BeadhiveFirst(m);
    JoinThree("kernel", o, "contracts");
    KernelSpelled(o);
    UnderPackage(m, "beadhive", "beadhive.kernel." + o + ".contracts", ["kernel", o, "contracts"]);
  }

  lemma KernelSpelled(o: string)
    ensures "beadhive.kernel." + o + ".contracts" == "beadhive" + "." + ("kernel" + "." + (o + "." + "contracts"))
  {}

  /** The role by the first parts, for a layer, a kernel contract and a package of one owner. */
  lemma TailRole(tail: seq<string>, o: string)
    ensures RoleBelow(tail).kind == Domain && RoleBelow(tail).owner == o <==> ["modules", o, "domain"] <= tail
    ensures RoleBelow(tail).kind == Contracts && RoleBelow(tail).owner == o <==> ["modules", o, "contracts"] <= tail
    ensures RoleBelow(tail).kind == Application && RoleBelow(tail).owner == o <==> ["modules", o, "application"] <= tail
  {
    Three("modules", o, "domain", tail);
    Three("modules", o, "contracts", tail);
    Three("modules", o, "application", tail);
  }

  lemma Three(a: string, b: string, c: string, tail: seq<string>)
    ensures [a, b, c] <= tail <==> |tail| >= 3 && tail[0] == a && tail[1] == b && tail[2] == c
  {
    if |tail| >= 3 && tail[0] == a && tail[1] == b && tail[2] == c {
      assert tail == [a, b, c] + tail[3..];
    }
  }

  lemma Two(a: string, b: string, tail: seq<string>)
    ensures [a, b] <= tail <==> |tail| >= 2 && tail[0] == a && tail[1] == b
  {
    if |tail| >= 2 && tail[0] == a && tail[1] == b {
      assert tail == [a, b] + tail[2..];
    }
  }

  lemma TailPackage(tail: seq<string>, o: string)
    ensures RoleBelow(tail).kind == KernelContracts && RoleBelow(tail).owner == o <==> ["kernel", o, "contracts"] <= tail
    ensures RoleBelow(tail).kind == Kernel && RoleBelow(tail).owner == o <==> ["kernel", o] <= tail && !(["kernel", o, "contracts"] <= tail)
    ensures RoleBelow(tail).kind == Adapter && RoleBelow(tail).owner == o <==> ["adapters", o] <= tail
    ensures RoleBelow(tail).kind == Integration && RoleBelow(tail).owner == o <==> ["integrations", o] <= tail
    ensures RoleBelow(tail).kind == Bootstrap <==> ["bootstrap"] <= tail
    ensures RoleBelow(tail).kind != External
  {
    Three("kernel", o, "contracts", tail);
    Two("kernel", o, tail);
    Two("adapters", o, tail);
    Two("integrations", o, tail);
    if |tail| >= 1 && tail[0] == "bootstrap" {
      assert tail == ["bootstrap"] + tail[1..];
    }
  }

  /** A module of the package has a role and owner exactly as its name is written. */
  lemma RoleIffNamed(m: Module, o: string)
    requires Under(m, "beadhive") && DotFree(o)
    ensures RoleOf(m).kind == Domain && RoleOf(m).owner == o <==> Under(m, "beadhive.modules." + o + ".domain")
    ensures RoleOf(m).kind == Contracts && RoleOf(m).owner == o <==> Under(m, "beadhive.modules." + o + ".contracts")
    ensures RoleOf(m).kind == Application && RoleOf(m).owner == o <==> Under(m, "beadhive.modules." + o + ".application")
    ensures RoleOf(m).kind == KernelContracts && RoleOf(m).owner == o <==> Under(m, "beadhive.kernel." + o + ".contracts")
    ensures RoleOf(m).kind == Kernel && RoleOf(m).owner == o <==>
      Under(m, "beadhive.kernel." + o) && !Under(m, "beadhive.kernel." + o + ".contracts")
    ensures RoleOf(m).kind == Adapter && RoleOf(m).owner == o <==> Under(m, "beadhive.adapters." + o)
    ensures RoleOf(m).kind == Integration && RoleOf(m).owner == o <==> Under(m, "beadhive.integrations." + o)
    ensures RoleOf(m).kind == Bootstrap <==> Under(m, "beadhive.bootstrap")
    ensures RoleOf(m).kind != External && DotFree(RoleOf(m).owner)
  {
    hide RoleOf, RoleBelow, Under, Tail;
    InBeadhive(m);
    LayerNames(m, o);
    PackageNames(m, o);
    KernelParts(m, o);
    BootstrapParts(m);
    TailRole(Tail(m), o);
    TailPackage(Tail(m), o);
    OwnerDotFree(m);
  }

  lemma LayerNames(m: Module, o: string)
    requires Under(m, "beadhive") && DotFree(o)
    ensures Under(m, "beadhive.modules." + o + ".domain") <==> ["modules", o, "domain"] <= Tail(m)
    ensures Under(m, "beadhive.modules." + o + ".contracts") <==> ["modules", o, "contracts"] <= Tail(m)
    ensures Under(m, "beadhive.modules." + o + ".application") <==> ["modules", o, "application"] <= Tail(m)
  {
    hide Under, Tail;
    var head := "beadhive.modules." + o;
    assert head + ".domain" == head + "." + "domain" && head + ".contracts" == head + "." + "contracts"
      && head + ".application" == head + "." + "application";
    LayerParts(m, o, "domain");
    LayerParts(m, o, "contracts");
    LayerParts(m, o, "application");
  }

  lemma PackageNames(m: Module, o: string)
    requires Under(m, "beadhive") && DotFree(o)
    ensures Under(m, "beadhive.kernel." + o) <==> ["kernel", o] <= Tail(m)
    ensures Under(m, "beadhive.adapters." + o) <==> ["adapters", o] <= Tail(m)
    ensures Under(m, "beadhive.integrations." + o) <==> ["integrations", o] <= Tail(m)
  {
    hide Under, Tail;
    assert "beadhive.kernel." + o == "beadhive." + "kernel" + "." + o;
    assert "beadhive.adapters." + o == "beadhive." + "adapters" + "." + o;
    assert "beadhive.integrations." + o == "beadhive." + "integrations" + "." + o;
    PackageParts(m, "kernel", o);
    PackageParts(m, "adapters", o);
    PackageParts(m, "integrations", o);
  }

  lemma BootstrapParts(m: Module)
    requires Under(m, "beadhive")
    ensures Under(m, "beadhive.bootstrap") <==> ["bootstrap"] <= Tail(m)
  {
    hide Under, Split, RoleOf, RoleBelow, Tail;
    BeadhiveFirst(m);
    assert "beadhive.bootstrap" == "beadhive" + "." + Join(["bootstrap"]);
    UnderPackage(m, "beadhive", "beadhive.bootstrap", ["bootstrap"]);
  }

  lemma OwnerDotFree(m: Module)
    requires Under(m, "beadhive")
    ensures DotFree(RoleOf(m).owner)
  {
    hide Split, RoleOf, RoleBelow, Under;
    InBeadhive(m);
    SplitParts(m);
    OwnerIsPart(Tail(m));
    forall part | part in Tail(m) ensures part in Split(m) {}
  }

  /** The owner is a part of the name, or fixed. */
  lemma OwnerIsPart(tail: seq<string>)
    ensures RoleBelow(tail).owner in tail || RoleBelow(tail).owner == "bootstrap" || RoleBelow(tail).owner == "legacy"
  {}

  /** A module belongs to the package's tree exactly when some part of its name is beadhive. */
  lemma ExternalIff(m: Module)
    ensures RoleOf(m).kind == External <==> "beadhive" !in Split(m)
    ensures Under(m, "beadhive") ==> "beadhive" in Split(m)
  {
    hide RoleBelow;
    if Under(m, "beadhive") {
      InBeadhive(m);
    }
    NeverExternal(Split(m)[IndexOf(Split(m), "beadhive")..]);
  }

  lemma NeverExternal(parts: seq<string>)
    ensures parts != [] ==> RoleBelow(parts[1..]).kind != External
  {}

  /** What comes before the package in a name does not matter. */
  lemma RoleRooted(before: string, m: Module)
    requires Under(m, "beadhive") && "beadhive" !in Split(before)
    ensures RoleOf(before + "." + m) == RoleOf(m)
  {
    hide RoleBelow, Split, IndexOf, Under;
    SplitDot(before, m);
    InBeadhive(m);
    FirstBeadhive(Split(before), Split(m));
    var parts := Split(before) + Split(m);
    assert Split(before + "." + m) == parts && IndexOf(parts, "beadhive") == |Split(before)|;
    assert parts[|Split(before)| + 1..] == Tail(m);
  }

  lemma {:induction false} FirstBeadhive(before: seq<string>, after: seq<string>)
    requires "beadhive" !in before && after != [] && after[0] == "beadhive"
    ensures IndexOf(before + after, "beadhive") == |before|
  {
    var i, j := IndexOf(before + after, "beadhive"), |before|;
    assert (before + after)[j] == "beadhive";
  }

  // ----- public names -----

  /** The module lies in the package, and no part of its name below it is private. */
  predicate PublicIn(m: Module, package: string) {
    m == package || (package + "." <= m && !HasPrivatePart(m[|package| + 1..]))
  }

  /** What is public is decided by the parts below the first ones. */
  lemma PublicBelow(m: Module, package: string, parts: seq<string>)
    requires m == package ==> Tail(m) == parts
    requires package + "." <= m ==> Tail(m) == parts + Split(m[|package| + 1..])
    ensures PublicIn(m, package) <==> Under(m, package) && NoPrivatePart(Tail(m)[|parts|..])
  {
    hide Tail, HasPrivatePart;
    if package + "." <= m {
      var rest := m[|package| + 1..];
      PrivateParts(rest);
      assert (parts + Split(rest))[|parts|..] == Split(rest);
    }
  }

  lemma PublicLayer(m: Module, o: string, layer: string)
    requires Under(m, "beadhive") && DotFree(o) && DotFree(layer) && IsLayer(LayerNamed(layer))
    ensures PublicIn(m, "beadhive.modules." + o + "." + layer) <==> InLayer(m, o, layer) && RoleOf(m).public
  {
    hide RoleOf, Tail, Under, PublicIn, LayerNamed, NoPrivatePart;
    InBeadhive(m);
    LayerParts(m, o, layer);
    Three("modules", o, layer, Tail(m));
    PublicBelow(m, "beadhive.modules." + o + "." + layer, ["modules", o, layer]);
  }

  /** A name of a layer is public when no part below the layer begins with an underscore. */
  lemma PublicLayers(m: Module, o: string)
    requires Under(m, "beadhive") && DotFree(o)
    ensures PublicIn(m, "beadhive.modules." + o + ".domain") <==>
      Under(m, "beadhive.modules." + o + ".domain") && RoleOf(m).public
    ensures PublicIn(m, "beadhive.modules." + o + ".contracts") <==>
      Under(m, "beadhive.modules." + o + ".contracts") && RoleOf(m).public
    ensures PublicIn(m, "beadhive.modules." + o + ".application") <==>
      Under(m, "beadhive.modules." + o + ".application") && RoleOf(m).public
  {
    hide RoleOf, Under, PublicIn;
    var head := "beadhive.modules." + o;
    assert head + ".domain" == head + "." + "domain" && head + ".contracts" == head + "." + "contracts"
      && head + ".application" == head + "." + "application";
    PublicLayer(m, o, "domain");
    PublicLayer(m, o, "contracts");
    PublicLayer(m, o, "application");
  }

  lemma PublicKernelContracts(m: Module, o: string)
    requires Under(m, "beadhive") && DotFree(o)
    ensures PublicIn(m, "beadhive.kernel." + o + ".contracts") <==>
      Under(m, "beadhive.kernel." + o + ".contracts") && RoleOf(m).public
  {
    hide RoleOf, Tail, Under, PublicIn, NoPrivatePart;
    InBeadhive(m);
    KernelParts(m, o);
    Three("kernel", o, "contracts", Tail(m));
    PublicBelow(m, "beadhive.kernel." + o + ".contracts", ["kernel", o, "contracts"]);
  }

  lemma PublicKernel(m: Module, o: string)
    requires Under(m, "beadhive") && DotFree(o)
    ensures PublicIn(m, "beadhive.kernel." + o) <==> Under(m, "beadhive.kernel." + o) && RoleOf(m).public
  {
    hide RoleOf, Tail, Under, PublicIn, NoPrivatePart;
    InBeadhive(m);
    assert "beadhive.kernel." + o == "beadhive." + "kernel" + "." + o;
    PackageParts(m, "kernel", o);
    Two("kernel", o, Tail(m));
    PublicBelow(m, "beadhive.kernel." + o, ["kernel", o]);
    if ["kernel", o] <= Tail(m) {
      KernelPublic(Tail(m));
    }
  }

  lemma KernelPublic(tail: seq<string>)
    requires |tail| >= 2 && tail[0] == "kernel"
    ensures RoleBelow(tail).public == NoPrivatePart(tail[2..])
  {
    if |tail| >= 3 && tail[2] == "contracts" {
      HeadTail(tail[2..]);
      assert tail[2..][0] == "contracts" && tail[2..][1..] == tail[3..];
      assert "contracts"[0] != '_';
    }
  }
}
