/** Release versions: X.Y.Z with an optional a, b or rc number, and the bumps a release may make. */
module Versions {
  import opened Wrappers

  datatype Kind = Alpha | Beta | Candidate | Final

  datatype Version = Version(major: nat, minor: nat, patch: nat, kind: Kind, number: nat)

  function Rank(kind: Kind): nat {
    match kind case Alpha => 0 case Beta => 1 case Candidate => 2 case Final => 3
  }

  /** A final version carries no pre-release number. */
  predicate Canonical(v: Version) {
    v.kind.Final? ==> v.number == 0
  }

  // ----- PEP 440 order -----

  predicate BaseLess(v: Version, w: Version) {
    v.major < w.major
    || (v.major == w.major && v.minor < w.minor)
    || (v.major == w.major && v.minor == w.minor && v.patch < w.patch)
  }

  predicate SameBase(v: Version, w: Version) {
    v.major == w.major && v.minor == w.minor && v.patch == w.patch
  }

  /** By release number, then a before b before rc before the final release, then by number. */
  predicate Less(v: Version, w: Version) {
    BaseLess(v, w)
    || (SameBase(v, w) && Rank(v.kind) < Rank(w.kind))
    || (SameBase(v, w) && v.kind == w.kind && v.number < w.number)
  }

  lemma LessIsStrictTotal(u: Version, v: Version, w: Version)
    ensures !Less(v, v)
    ensures Less(u, v) && Less(v, w) ==> Less(u, w)
    ensures v == w || Less(v, w) || Less(w, v)
  {}

  // ----- one bump -----

  predicate NextBase(v: Version, w: Version) {
    (w.major == v.major && w.minor == v.minor && w.patch == v.patch + 1)
    || (w.major == v.major && w.minor == v.minor + 1 && w.patch == 0)
    || (w.major == v.major + 1 && w.minor == 0 && w.patch == 0)
  }

  predicate Bump(v: Version, w: Version) {
    if v.kind.Final? then
      NextBase(v, w) && w.number == 0
    else
      SameBase(v, w)
      && ((w.kind == v.kind && w.number == v.number + 1) || (Rank(v.kind) < Rank(w.kind) && w.number == 0))
  }

  ghost predicate Steps(v: Version, w: Version, n: nat)
    decreases n
  {
    if n == 0 then v == w else exists u :: Bump(v, u) && Steps(u, w, n - 1)
  }

  /** One or more bumps lead from v to w. */
  ghost predicate Reached(v: Version, w: Version) {
    exists n: nat :: n >= 1 && Steps(v, w, n)
  }

  lemma OneBump(v: Version, w: Version)
    requires Bump(v, w)
    ensures Reached(v, w)
  {
    assert Steps(w, w, 0);
    assert Steps(v, w, 1);
  }

  lemma {:induction false} StepsTrans(u: Version, v: Version, w: Version, m: nat, n: nat)
    requires Steps(u, v, m) && Steps(v, w, n)
    ensures Steps(u, w, m + n)
    decreases m
  {
    if m > 0 {
      var x :| Bump(u, x) && Steps(x, v, m - 1);
      StepsTrans(x, v, w, m - 1, n);
    }
  }

  lemma ReachedTrans(u: Version, v: Version, w: Version)
    requires Reached(u, v) && Reached(v, w)
    ensures Reached(u, w)
  {
    var m: nat :| m >= 1 && Steps(u, v, m);
    var n: nat :| n >= 1 && Steps(v, w, n);
    StepsTrans(u, v, w, m, n);
  }

  lemma {:induction false} StepsGoUp(v: Version, w: Version, n: nat)
    requires Steps(v, w, n) && n >= 1 && Canonical(v)
    ensures Less(v, w) && Canonical(w)
    decreases n
  {
    var u :| Bump(v, u) && Steps(u, w, n - 1);
    if n > 1 {
      StepsGoUp(u, w, n - 1);
      LessIsStrictTotal(v, u, w);
    }
  }

  /** From a final version, every later base is reached, as a final or as a first pre-release. */
  lemma {:induction false} BaseReached(v: Version, w: Version)
    requires v.kind.Final? && w.number == 0 && BaseLess(v, w)
    ensures Reached(v, w)
    decreases w.major, w.minor, w.patch
  {
    if Bump(v, w) {
      OneBump(v, w);
    } else {
      var u := if w.patch > 0 then Version(w.major, w.minor, w.patch - 1, Final, 0)
               else if w.minor > 0 then Version(w.major, w.minor - 1, 0, Final, 0)
               else Version(w.major - 1, 0, 0, Final, 0);
      BaseReached(v, u);
      OneBump(u, w);
      ReachedTrans(v, u, w);
    }
  }

  lemma {:induction false} NumberReached(v: Version, w: Version)
    requires !v.kind.Final? && SameBase(v, w) && v.kind == w.kind && v.number < w.number
    ensures Reached(v, w)
    decreases w.number
  {
    var u := w.(number := w.number - 1);
    OneBump(u, w);
    if u != v {
      NumberReached(v, u);
      ReachedTrans(v, u, w);
    }
  }

  /** If the first version of w's kind is reached then so is w. */
  lemma FirstThenNumber(v: Version, w: Version)
    requires Canonical(w) && Reached(v, w.(number := 0))
    ensures Reached(v, w)
  {
    if w.number > 0 {
      NumberReached(w.(number := 0), w);
      ReachedTrans(v, w.(number := 0), w);
    }
  }

  lemma LessIsReached(v: Version, w: Version)
    requires Canonical(v) && Canonical(w) && Less(v, w)
    ensures Reached(v, w)
  {
    var first := w.(number := 0);
    if BaseLess(v, w) {
      var f := v.(kind := Final, number := 0);
      BaseReached(f, first);
      if v != f {
        OneBump(v, f);
        ReachedTrans(v, f, first);
      }
      FirstThenNumber(v, w);
    } else if v.kind == w.kind {
      NumberReached(v, w);
    } else {
      OneBump(v, first);
      FirstThenNumber(v, w);
    }
  }

  /** Bumps reach exactly the later versions: none repeats, and none is out of reach of an earlier one. */
  lemma ReachedIffLess(v: Version, w: Version)
    requires Canonical(v) && Canonical(w)
    ensures Reached(v, w) <==> Less(v, w)
    ensures !Reached(v, v)
  {
    if Less(v, w) {
      LessIsReached(v, w);
    }
    forall x | Reached(v, x) ensures Less(v, x) {
      var n: nat :| n >= 1 && Steps(v, x, n);
      StepsGoUp(v, x, n);
    }
  }

  // ----- version texts -----

  predicate IsDigit(c: char) {
    '0' <= c <= '9'
  }

  predicate AllDigits(s: string) {
    forall i :: 0 <= i < |s| ==> IsDigit(s[i])
  }

  function Digit(d: nat): (c: char)
    requires d < 10
    ensures IsDigit(c) && c as int - '0' as int == d
  {
    '0' + d as char
  }

  /** A number in decimal, as an integer prints. */
  function Decimal(n: nat): (s: string)
    ensures s != "" && AllDigits(s)
  {
    if n < 10 then [Digit(n)] else Decimal(n / 10) + [Digit(n % 10)]
  }

  function Value(s: string): nat
    requires AllDigits(s)
  {
    if s == "" then 0 else Value(s[..|s| - 1]) * 10 + (s[|s| - 1] as int - '0' as int)
  }

  lemma {:induction false} DecimalValue(n: nat)
    ensures Value(Decimal(n)) == n
  {
    if n < 10 {
      assert Decimal(n)[..0] == "";
    } else {
      DecimalValue(n / 10);
      assert Decimal(n)[..|Decimal(n)| - 1] == Decimal(n / 10);
    }
  }

  /** No leading zero, except in the number zero itself. */
  predicate Plain(s: string) {
    s != "" && AllDigits(s) && (s[0] == '0' ==> |s| == 1)
  }

  lemma {:induction false} ValueOfPlain(s: string)
    requires Plain(s)
    ensures Value(s) == 0 ==> s == "0"
    ensures Decimal(Value(s)) == s
    decreases |s|
  {
    var front, last := s[..|s| - 1], s[|s| - 1];
    if |s| == 1 {
      assert front == "";
      assert s == [last];
    } else {
      ValueOfPlain(front);
      assert Value(front) > 0;
      assert Value(s) == Value(front) * 10 + (last as int - '0' as int);
      assert Value(s) / 10 == Value(front) && Value(s) % 10 == last as int - '0' as int;
      assert s == front + [last];
    }
  }

  lemma {:induction false} DecimalIsPlain(n: nat)
    ensures Plain(Decimal(n))
    ensures n > 0 ==> Decimal(n)[0] != '0'
  {
    if n >= 10 {
      DecimalIsPlain(n / 10);
    }
  }

  function Mark(kind: Kind): string {
    match kind case Alpha => "a" case Beta => "b" case Candidate => "rc" case Final => ""
  }

  function BaseText(major: nat, minor: nat, patch: nat): string {
    Decimal(major) + "." + Decimal(minor) + "." + Decimal(patch)
  }

  function Format(v: Version): string {
    BaseText(v.major, v.minor, v.patch) + (if v.kind.Final? then "" else Mark(v.kind) + Decimal(v.number))
  }

  /** How many digits a text starts with. */
  function Span(text: string): (n: nat)
    ensures n <= |text| && AllDigits(text[..n]) && (n < |text| ==> !IsDigit(text[n]))
  {
    if text == "" || !IsDigit(text[0]) then 0 else
    var n := 1 + Span(text[1..]);
    assert forall i :: 0 < i < n ==> text[i] == text[1..][..n - 1][i - 1];
    n
  }

  lemma SpanUnique(digits: string, rest: string)
    requires AllDigits(digits) && (rest == "" || !IsDigit(rest[0]))
    ensures Span(digits + rest) == |digits|
    ensures (digits + rest)[..|digits|] == digits && (digits + rest)[|digits|..] == rest
  {
    var text := digits + rest;
    var n := Span(text);
    assert forall i :: 0 <= i < |digits| ==> IsDigit(text[i]);
    assert forall i :: 0 <= i < n ==> IsDigit(text[i]) by {
      assert forall i :: 0 <= i < n ==> text[..n][i] == text[i];
    }
    assert rest != "" ==> !IsDigit(text[|digits|]);
  }

  /** The leading digits and what follows them, when there is at least one digit. */
  function Digits(text: string): Option<(string, string)> {
    if Span(text) == 0 then None else Some((text[..Span(text)], text[Span(text)..]))
  }

  function ParsePre(text: string): Option<(Kind, string)> {
    if text == "" then Some((Final, "0"))
    else
      var kind := if "a" <= text then Alpha else if "b" <= text then Beta else if "rc" <= text then Candidate else Final;
      if kind.Final? then None
      else
        match Digits(text[|Mark(kind)|..])
        case None => None
        case Some((digits, rest)) => if rest == "" then Some((kind, digits)) else None
  }

  /** The parts of a text of the form X.Y.Z with an optional a, b or rc number. */
  datatype Parts = Parts(major: string, minor: string, patch: string, kind: Kind, number: string)

  function ParseParts(text: string): Option<Parts> {
    match Digits(text)
    case None => None
    case Some((major, afterMajor)) =>
      if !("." <= afterMajor) then None else
      match Digits(afterMajor[1..])
      case None => None
      case Some((minor, afterMinor)) =>
        if !("." <= afterMinor) then None else
        match Digits(afterMinor[1..])
        case None => None
        case Some((patch, afterPatch)) =>
          match ParsePre(afterPatch)
          case None => None
          case Some((kind, number)) => Some(Parts(major, minor, patch, kind, number))
  }

  predicate PartsOk(p: Parts) {
    p.major != "" && p.minor != "" && p.patch != "" && p.number != ""
    && AllDigits(p.major) && AllDigits(p.minor) && AllDigits(p.patch) && AllDigits(p.number)
    && (p.kind.Final? ==> p.number == "0")
  }

  function PreText(p: Parts): string {
    if p.kind.Final? then "" else Mark(p.kind) + p.number
  }

  /** The text the parts were read from. */
  function Text(p: Parts): string {
    p.major + ("." + (p.minor + ("." + (p.patch + PreText(p)))))
  }

  lemma DigitsOf(digits: string, rest: string)
    requires digits != "" && AllDigits(digits) && (rest == "" || !IsDigit(rest[0]))
    ensures Digits(digits + rest) == Some((digits, rest))
  {
    SpanUnique(digits, rest);
  }

  lemma PreParses(p: Parts)
    requires PartsOk(p)
    ensures ParsePre(PreText(p)) == Some((p.kind, p.number))
  {
    var mark := Mark(p.kind);
    if !p.kind.Final? {
      DigitsOf(p.number, "");
      assert p.number + "" == p.number;
      assert PreText(p)[..|mark|] == mark && PreText(p)[|mark|..] == p.number;
      assert PreText(p)[0] == mark[0];
    }
  }

  lemma TextParses(p: Parts)
    requires PartsOk(p)
    ensures ParseParts(Text(p)) == Some(p)
  {
    hide Digits, ParsePre;
    PreParses(p);
    var afterMinor := "." + (p.patch + PreText(p));
    var afterMajor := "." + (p.minor + afterMinor);
    DigitsOf(p.patch, PreText(p));
    DigitsOf(p.minor, afterMinor);
    DigitsOf(p.major, afterMajor);
    assert afterMinor[1..] == p.patch + PreText(p) && afterMajor[1..] == p.minor + afterMinor;
  }

  lemma DigitsBack(text: string)
    requires Digits(text).Some?
    ensures var (digits, rest) := Digits(text).value; digits != "" && AllDigits(digits) && text == digits + rest
  {}

  lemma PreBack(text: string)
    requires ParsePre(text).Some?
    ensures var (kind, number) := ParsePre(text).value;
      number != "" && AllDigits(number) && (kind.Final? ==> number == "0")
      && text == (if kind.Final? then "" else Mark(kind) + number)
  {
    hide Digits;
    if text != "" {
      var kind := ParsePre(text).value.0;
      DigitsBack(text[|Mark(kind)|..]);
      assert text == Mark(kind) + text[|Mark(kind)|..];
      assert ParsePre(text).value.1 + "" == ParsePre(text).value.1;
    }
  }

  lemma PartsBack(text: string)
    requires ParseParts(text).Some?
    ensures var p := ParseParts(text).value; PartsOk(p) && text == Text(p)
  {
    hide Digits, ParsePre, Span;
    var afterMajor := Digits(text).value.1;
    var afterMinor := Digits(afterMajor[1..]).value.1;
    var afterPatch := Digits(afterMinor[1..]).value.1;
    DigitsBack(text);
    DigitsBack(afterMajor[1..]);
    DigitsBack(afterMinor[1..]);
    PreBack(afterPatch);
    assert afterMajor == "." + afterMajor[1..];
    assert afterMinor == "." + afterMinor[1..];
  }

  /** A text parses into given parts exactly when it is those parts written out: the whole text, and one reading. */
  lemma ParsesExactly(text: string, p: Parts)
    ensures ParseParts(text) == Some(p) <==> PartsOk(p) && text == Text(p)
  {
    hide ParseParts;
    if ParseParts(text).Some? {
      PartsBack(text);
    }
    if PartsOk(p) {
      TextParses(p);
    }
  }

  function VersionOf(p: Parts): (v: Version)
    requires PartsOk(p)
    ensures Canonical(v)
  {
    assert Value("0") == 0;
    Version(Value(p.major), Value(p.minor), Value(p.patch), p.kind, Value(p.number))
  }

  function Parse(text: string): Option<Version> {
    match ParseParts(text)
    case None => None
    case Some(p) => PartsBack(text); Some(VersionOf(p))
  }

  predicate PlainParts(p: Parts) {
    Plain(p.major) && Plain(p.minor) && Plain(p.patch) && Plain(p.number)
  }

  function PartsOf(v: Version): Parts {
    Parts(Decimal(v.major), Decimal(v.minor), Decimal(v.patch), v.kind, Decimal(v.number))
  }

  lemma PartsOfVersion(v: Version)
    requires Canonical(v)
    ensures PartsOk(PartsOf(v)) && PlainParts(PartsOf(v)) && VersionOf(PartsOf(v)) == v
    ensures Format(v) == Text(PartsOf(v))
  {
    hide Decimal, Value;
    assert Decimal(0) == "0" by { DecimalIsPlain(0); DecimalIsZero(); }
    DecimalValue(v.major); DecimalValue(v.minor); DecimalValue(v.patch); DecimalValue(v.number);
    DecimalIsPlain(v.major); DecimalIsPlain(v.minor); DecimalIsPlain(v.patch); DecimalIsPlain(v.number);
    var pre := PreText(PartsOf(v));
    assert Format(v) == Decimal(v.major) + "." + Decimal(v.minor) + "." + Decimal(v.patch) + pre;
  }

  lemma DecimalIsZero()
    ensures Decimal(0) == "0"
  {}

  /** Formatting a version and parsing it back gives the version. */
  lemma ParseFormat(v: Version)
    requires Canonical(v)
    ensures Parse(Format(v)) == Some(v)
  {
    hide ParseParts, VersionOf, Format, Text;
    PartsOfVersion(v);
    TextParses(PartsOf(v));
  }

  /** Parsing a text and formatting the version gives the text back exactly when no part has a leading zero. */
  lemma FormatParse(text: string)
    requires Parse(text).Some?
    ensures Canonical(Parse(text).value)
    ensures Format(Parse(text).value) == text <==> PlainParts(ParseParts(text).value)
  {
    hide ParseParts, Text, PartsOf, PlainParts, Format;
    var p, v := ParseParts(text).value, Parse(text).value;
    PartsBack(text);
    PartsOfVersion(v);
    if PlainParts(p) {
      PlainPartsOf(p);
    }
    if Format(v) == text {
      TextParses(PartsOf(v));
    }
  }

  lemma PlainPartsOf(p: Parts)
    requires PartsOk(p) && PlainParts(p)
    ensures PartsOf(VersionOf(p)) == p
  {
    hide Decimal, Value;
    ValueOfPlain(p.major); ValueOfPlain(p.minor); ValueOfPlain(p.patch); ValueOfPlain(p.number);
  }

  // ----- the accepted texts -----

  const PreOrder: seq<Kind> := [Alpha, Beta, Candidate]

  /** A base followed by the first pre-release of each kind. */
  function Firsts(base: string, kinds: seq<Kind>): seq<string> {
    seq(|kinds|, i requires 0 <= i < |kinds| => base + (Mark(kinds[i]) + Decimal(0)))
  }

  /** Every exact version a release from `current` may take; None where the source refuses `current`. */
  function AllowedSuccessors(current: string): Option<seq<string>> {
    match Parse(current)
    case None => None
    case Some(v) =>
      var base := BaseText(v.major, v.minor, v.patch);
      if !v.kind.Final? then
        Some([base, base + (Mark(v.kind) + Decimal(v.number + 1))] + Firsts(base, PreOrder[Rank(v.kind) + 1..]))
      else
        var patch := BaseText(v.major, v.minor, v.patch + 1);
        var minor := BaseText(v.major, v.minor + 1, 0);
        var major := BaseText(v.major + 1, 0, 0);
        Some([patch] + Firsts(patch, PreOrder) + ([minor] + Firsts(minor, PreOrder)) + ([major] + Firsts(major, PreOrder)))
  }

  /** Whether the target passes the successor check rather than being refused. */
  predicate CheckSuccessor(current: string, target: string) {
    AllowedSuccessors(current).Some? && Parse(target).Some? && target in AllowedSuccessors(current).value
  }

  lemma FirstsMember(major: nat, minor: nat, patch: nat, kinds: seq<Kind>, target: string)
    requires Final !in kinds
    ensures target in Firsts(BaseText(major, minor, patch), kinds)
       <==> exists kind :: kind in kinds && target == Format(Version(major, minor, patch, kind, 0))
  {
    hide Decimal, BaseText;
    var base := BaseText(major, minor, patch);
    var texts := Firsts(base, kinds);
    forall i | 0 <= i < |kinds| ensures texts[i] == Format(Version(major, minor, patch, kinds[i], 0)) {}
    if target in texts {
      var i :| 0 <= i < |texts| && texts[i] == target;
      assert kinds[i] in kinds;
    }
    if kind :| kind in kinds && target == Format(Version(major, minor, patch, kind, 0)) {
      var i :| 0 <= i < |kinds| && kinds[i] == kind;
      assert texts[i] == target;
    }
  }

  /** The final version, or the first pre-release of some kind, of a base. */
  predicate FirstAt(w: Version, major: nat, minor: nat, patch: nat) {
    w == Version(major, minor, patch, w.kind, 0)
  }

  lemma BaseAndFirsts(major: nat, minor: nat, patch: nat, target: string)
    ensures var base := BaseText(major, minor, patch);
      target in [base] + Firsts(base, PreOrder)
      <==> exists w :: FirstAt(w, major, minor, patch) && target == Format(w)
  {
    hide Decimal, BaseText, Firsts;
    var base := BaseText(major, minor, patch);
    FirstsMember(major, minor, patch, PreOrder, target);
    assert base + "" == base;
    assert Format(Version(major, minor, patch, Final, 0)) == base;
    assert PreOrder[0] == Alpha && PreOrder[1] == Beta && PreOrder[2] == Candidate;
    assert FirstAt(Version(major, minor, patch, Final, 0), major, minor, patch);
    if kind :| kind in PreOrder && target == Format(Version(major, minor, patch, kind, 0)) {
      assert FirstAt(Version(major, minor, patch, kind, 0), major, minor, patch);
    }
  }

  lemma PreMember(v: Version, target: string)
    requires !v.kind.Final?
    ensures var base := BaseText(v.major, v.minor, v.patch);
      target in [base, base + (Mark(v.kind) + Decimal(v.number + 1))] + Firsts(base, PreOrder[Rank(v.kind) + 1..])
      <==> exists w :: Canonical(w) && Bump(v, w) && target == Format(w)
  {
    hide Decimal, BaseText, Firsts;
    var later := PreOrder[Rank(v.kind) + 1..];
    var base := BaseText(v.major, v.minor, v.patch);
    var final, next := Version(v.major, v.minor, v.patch, Final, 0), v.(number := v.number + 1);
    assert base + "" == base;
    assert Format(final) == base && Format(next) == base + (Mark(v.kind) + Decimal(v.number + 1));
    assert Bump(v, final) && Bump(v, next);
    FirstsMember(v.major, v.minor, v.patch, later, target);
    forall kind | kind in later ensures Bump(v, Version(v.major, v.minor, v.patch, kind, 0)) {}
    forall w | Bump(v, w) && Canonical(w) ensures w == final || w == next || (w.kind in later && w.number == 0) {
      if w.kind != v.kind {
        LaterKinds(v.kind, w.kind);
      }
    }
  }

  lemma LaterKinds(kind: Kind, other: Kind)
    requires !kind.Final? && Rank(kind) < Rank(other)
    ensures other.Final? || other in PreOrder[Rank(kind) + 1..]
  {
    assert !other.Final? ==> PreOrder[Rank(kind) + 1..][Rank(other) - Rank(kind) - 1] == other;
  }

  lemma FinalMember(v: Version, target: string)
    requires v.kind.Final?
    ensures
      var patch := BaseText(v.major, v.minor, v.patch + 1);
      var minor := BaseText(v.major, v.minor + 1, 0);
      var major := BaseText(v.major + 1, 0, 0);
      target in [patch] + Firsts(patch, PreOrder) + ([minor] + Firsts(minor, PreOrder)) + ([major] + Firsts(major, PreOrder))
      <==> exists w :: Canonical(w) && Bump(v, w) && target == Format(w)
  {
    hide Decimal, BaseText, Firsts, Format;
    BaseAndFirsts(v.major, v.minor, v.patch + 1, target);
    BaseAndFirsts(v.major, v.minor + 1, 0, target);
    BaseAndFirsts(v.major + 1, 0, 0, target);
    forall w ensures Bump(v, w) <==>
      FirstAt(w, v.major, v.minor, v.patch + 1) || FirstAt(w, v.major, v.minor + 1, 0) || FirstAt(w, v.major + 1, 0, 0)
    {}
  }

  /** The check passes exactly the canonical texts of the versions one bump above the current one. */
  lemma CheckSuccessorExact(current: string, target: string)
    ensures CheckSuccessor(current, target)
       <==> Parse(current).Some? && Parse(target).Some? && target == Format(Parse(target).value)
            && Bump(Parse(current).value, Parse(target).value)
  {
    hide Parse, Format, Bump, Firsts, BaseText, Decimal;
    forall w | Canonical(w) ensures Parse(Format(w)) == Some(w) {
      ParseFormat(w);
    }
    if Parse(target).Some? {
      FormatParse(target);
    }
    if Parse(current).Some? {
      var v := Parse(current).value;
      if v.kind.Final? {
        FinalMember(v, target);
      } else {
        PreMember(v, target);
      }
    }
  }

  ghost predicate Releases(current: string, target: string, n: nat)
    decreases n
  {
    if n == 0 then current == target
    else exists next :: CheckSuccessor(current, next) && Releases(next, target, n - 1)
  }

  lemma {:induction false} ReleasesAreSteps(current: string, target: string, n: nat)
    requires Releases(current, target, n) && n >= 1
    ensures Parse(current).Some? && Parse(target).Some? && target == Format(Parse(target).value)
    ensures Steps(Parse(current).value, Parse(target).value, n)
    decreases n
  {
    hide Parse, Format, Bump, CheckSuccessor;
    var next :| CheckSuccessor(current, next) && Releases(next, target, n - 1);
    CheckSuccessorExact(current, next);
    if n > 1 {
      ReleasesAreSteps(next, target, n - 1);
    }
  }

  lemma {:induction false} StepsAreReleases(current: string, w: Version, n: nat)
    requires Parse(current).Some? && n >= 1 && Steps(Parse(current).value, w, n)
    ensures Releases(current, Format(w), n)
    decreases n
  {
    hide Parse, Format, Bump, CheckSuccessor;
    var v := Parse(current).value;
    FormatParse(current);
    var u :| Bump(v, u) && Steps(u, w, n - 1);
    BumpIsCanonical(v, u);
    ParseFormat(u);
    CheckSuccessorExact(current, Format(u));
    if n > 1 {
      StepsAreReleases(Format(u), w, n - 1);
    }
  }

  lemma BumpIsCanonical(v: Version, w: Version)
    requires Canonical(v) && Bump(v, w)
    ensures Canonical(w)
  {}

  /** Some series of accepted releases goes from one version text to another exactly when the second is the
      canonical text of a later version. */
  lemma ReleasesIffLess(current: string, target: string)
    requires Parse(current).Some?
    ensures (exists n: nat :: n >= 1 && Releases(current, target, n))
       <==> Parse(target).Some? && target == Format(Parse(target).value) && Less(Parse(current).value, Parse(target).value)
  {
    hide Parse, Format, Less, CheckSuccessor, Bump;
    var v := Parse(current).value;
    FormatParse(current);
    if n: nat :| n >= 1 && Releases(current, target, n) {
      ReleasesAreSteps(current, target, n);
      FormatParse(target);
      ReachedIffLess(v, Parse(target).value);
    }
    if Parse(target).Some? && target == Format(Parse(target).value) && Less(v, Parse(target).value) {
      FormatParse(target);
      ReachedIffLess(v, Parse(target).value);
      var n: nat :| n >= 1 && Steps(v, Parse(target).value, n);
      StepsAreReleases(current, Parse(target).value, n);
    }
  }

  // ----- the texts written out -----

  /** At least one digit and nothing else. */
  predicate IsNumber(s: string) {
    s != "" && AllDigits(s)
  }

  /** What each written form is read as. */
  lemma ReadsAs(major: string, minor: string, patch: string, number: string)
    requires IsNumber(major) && IsNumber(minor) && IsNumber(patch) && IsNumber(number)
    ensures Parse(major + "." + minor + "." + patch) == Some(Version(Value(major), Value(minor), Value(patch), Final, 0))
    ensures Parse(major + "." + minor + "." + patch + "a" + number)
      == Some(Version(Value(major), Value(minor), Value(patch), Alpha, Value(number)))
    ensures Parse(major + "." + minor + "." + patch + "b" + number)
      == Some(Version(Value(major), Value(minor), Value(patch), Beta, Value(number)))
    ensures Parse(major + "." + minor + "." + patch + "rc" + number)
      == Some(Version(Value(major), Value(minor), Value(patch), Candidate, Value(number)))
  {
    hide ParseParts, Value, Text;
    assert Value("0") == 0 by { ValueZero(); }
    forall kind: Kind ensures TextIs(major, minor, patch, kind, number) {
      TextWritten(major, minor, patch, kind, number);
    }
    assert TextIs(major, minor, patch, Final, number) && TextIs(major, minor, patch, Alpha, number)
      && TextIs(major, minor, patch, Beta, number) && TextIs(major, minor, patch, Candidate, number);
    TextParses(Parts(major, minor, patch, Final, "0"));
    TextParses(Parts(major, minor, patch, Alpha, number));
    TextParses(Parts(major, minor, patch, Beta, number));
    TextParses(Parts(major, minor, patch, Candidate, number));
  }

  lemma ValueZero()
    ensures Value("0") == 0
  {
    assert "0"[..0] == "";
  }

  predicate TextIs(major: string, minor: string, patch: string, kind: Kind, number: string) {
    Text(Parts(major, minor, patch, kind, if kind.Final? then "0" else number)) ==
      match kind
      case Final => major + "." + minor + "." + patch
      case Alpha => major + "." + minor + "." + patch + "a" + number
      case Beta => major + "." + minor + "." + patch + "b" + number
      case Candidate => major + "." + minor + "." + patch + "rc" + number
  }

  lemma TextWritten(major: string, minor: string, patch: string, kind: Kind, number: string)
    ensures TextIs(major, minor, patch, kind, number)
  {
    var base := major + "." + minor + "." + patch;
    var p := Parts(major, minor, patch, kind, if kind.Final? then "0" else number);
    assert Text(p) == base + PreText(p);
    assert base + "" == base;
    match kind
    case Final =>
    case Alpha => assert base + ("a" + number) == base + "a" + number;
    case Beta => assert base + ("b" + number) == base + "b" + number;
    case Candidate => assert base + ("rc" + number) == base + "rc" + number;
  }

  /** Only these forms are read at all. */
  lemma AcceptedTexts(text: string)
    ensures Parse(text).Some? <==>
      exists major, minor, patch, number :: IsNumber(major) && IsNumber(minor) && IsNumber(patch) && IsNumber(number)
        && (text == major + "." + minor + "." + patch || text == major + "." + minor + "." + patch + "a" + number
            || text == major + "." + minor + "." + patch + "b" + number || text == major + "." + minor + "." + patch + "rc" + number)
  {
    hide Parse, Text, Value;
    if Parse(text).Some? {
      ParseIsParts(text);
      var p := ParseParts(text).value;
      PartsBack(text);
      TextWritten(p.major, p.minor, p.patch, p.kind, p.number);
      assert IsNumber(p.major) && IsNumber(p.minor) && IsNumber(p.patch) && IsNumber(p.number);
    }
    forall major, minor, patch, number | IsNumber(major) && IsNumber(minor) && IsNumber(patch) && IsNumber(number)
        && (text == major + "." + minor + "." + patch || text == major + "." + minor + "." + patch + "a" + number
            || text == major + "." + minor + "." + patch + "b" + number || text == major + "." + minor + "." + patch + "rc" + number)
      ensures Parse(text).Some?
    {
      ReadsAs(major, minor, patch, number);
    }
  }

  lemma ParseIsParts(text: string)
    ensures Parse(text).Some? <==> ParseParts(text).Some?
  {}

  /** At one base every alpha comes before every beta, these before every candidate, all before the final
      version, and every version before those of a later base. */
  lemma OrderWritten(major: nat, minor: nat, patch: nat, m: nat, n: nat, w: Version)
    ensures Less(Version(major, minor, patch, Alpha, m), Version(major, minor, patch, Beta, n))
    ensures Less(Version(major, minor, patch, Beta, m), Version(major, minor, patch, Candidate, n))
    ensures Less(Version(major, minor, patch, Candidate, m), Version(major, minor, patch, Final, 0))
    ensures forall kind: Kind :: m < n ==> Less(Version(major, minor, patch, kind, m), Version(major, minor, patch, kind, n))
    ensures (major < w.major || (major == w.major && minor < w.minor) || (major == w.major && minor == w.minor && patch < w.patch)) ==>
      forall kind: Kind :: Less(Version(major, minor, patch, kind, m), w)
  {}

  lemma FormatWritten(major: nat, minor: nat, patch: nat, n: nat)
    ensures var base := Decimal(major) + "." + Decimal(minor) + "." + Decimal(patch);
      && Format(Version(major, minor, patch, Final, 0)) == base
      && Format(Version(major, minor, patch, Alpha, n)) == base + "a" + Decimal(n)
      && Format(Version(major, minor, patch, Beta, n)) == base + "b" + Decimal(n)
      && Format(Version(major, minor, patch, Candidate, n)) == base + "rc" + Decimal(n)
  {
    hide Decimal;
    var base := Decimal(major) + "." + Decimal(minor) + "." + Decimal(patch);
    assert base + ("a" + Decimal(n)) == base + "a" + Decimal(n);
    assert base + ("b" + Decimal(n)) == base + "b" + Decimal(n);
    assert base + ("rc" + Decimal(n)) == base + "rc" + Decimal(n);
  }

  lemma SuccessorOf(v: Version, target: string)
    requires Canonical(v)
    ensures CheckSuccessor(Format(v), target) <==> exists w :: Canonical(w) && Bump(v, w) && target == Format(w)
  {
    hide Format, Parse, Bump, CheckSuccessor;
    ParseFormat(v);
    CheckSuccessorExact(Format(v), target);
    if Parse(target).Some? {
      FormatParse(target);
    }
    forall w | Canonical(w) ensures Parse(Format(w)) == Some(w) {
      ParseFormat(w);
    }
  }

  /** The releases accepted from a pre-release, by their texts. */
  lemma PreSuccessors(major: nat, minor: nat, patch: nat, n: nat, target: string)
    ensures var base := Decimal(major) + "." + Decimal(minor) + "." + Decimal(patch);
      && (CheckSuccessor(base + "a" + Decimal(n), target) <==>
            target in {base, base + "a" + Decimal(n + 1), base + "b0", base + "rc0"})
      && (CheckSuccessor(base + "b" + Decimal(n), target) <==> target in {base, base + "b" + Decimal(n + 1), base + "rc0"})
      && (CheckSuccessor(base + "rc" + Decimal(n), target) <==> target in {base, base + "rc" + Decimal(n + 1)})
  {
    hide Format, CheckSuccessor, Decimal;
    var base := Decimal(major) + "." + Decimal(minor) + "." + Decimal(patch);
    FormatWritten(major, minor, patch, n);
    FormatWritten(major, minor, patch, n + 1);
    FirstsWritten(major, minor, patch);
    var a, b, rc := Version(major, minor, patch, Alpha, n), Version(major, minor, patch, Beta, n), Version(major, minor, patch, Candidate, n);
    var final, b0, rc0 := a.(kind := Final, number := 0), b.(number := 0), rc.(number := 0);
    SuccessorOf(a, target);
    SuccessorOf(b, target);
    SuccessorOf(rc, target);
    forall w | Canonical(w) ensures Bump(a, w) <==> w in {final, a.(number := n + 1), b0, rc0} {}
    forall w | Canonical(w) ensures Bump(b, w) <==> w in {final, b.(number := n + 1), rc0} {}
    forall w | Canonical(w) ensures Bump(rc, w) <==> w in {final, rc.(number := n + 1)} {}
  }

  lemma FirstsWritten(major: nat, minor: nat, patch: nat)
    ensures var base := Decimal(major) + "." + Decimal(minor) + "." + Decimal(patch);
      && Format(Version(major, minor, patch, Final, 0)) == base
      && Format(Version(major, minor, patch, Alpha, 0)) == base + "a0"
      && Format(Version(major, minor, patch, Beta, 0)) == base + "b0"
      && Format(Version(major, minor, patch, Candidate, 0)) == base + "rc0"
  {
    hide Decimal, Format;
    var base := Decimal(major) + "." + Decimal(minor) + "." + Decimal(patch);
    DecimalIsZero();
    FormatWritten(major, minor, patch, 0);
    assert base + "a" + "0" == base + "a0" && base + "b" + "0" == base + "b0" && base + "rc" + "0" == base + "rc0";
  }

  /** The first texts at a base: the final version and the first of each pre-release. */
  function FirstTexts(base: string): set<string> {
    {base, base + "a0", base + "b0", base + "rc0"}
  }

  /** The releases accepted from a final version, by their texts. */
  lemma FinalSuccessors(major: nat, minor: nat, patch: nat, target: string)
    ensures CheckSuccessor(Decimal(major) + "." + Decimal(minor) + "." + Decimal(patch), target) <==>
      || target in FirstTexts(Decimal(major) + "." + Decimal(minor) + "." + Decimal(patch + 1))
      || target in FirstTexts(Decimal(major) + "." + Decimal(minor + 1) + "." + "0")
      || target in FirstTexts(Decimal(major + 1) + "." + "0" + "." + "0")
  {
    hide Format, CheckSuccessor, Decimal, FirstTexts, Bump;
    DecimalIsZero();
    FormatWritten(major, minor, patch, 0);
    var v := Version(major, minor, patch, Final, 0);
    SuccessorOf(v, target);
    FirstsAt(major, minor, patch + 1, target);
    FirstsAt(major, minor + 1, 0, target);
    FirstsAt(major + 1, 0, 0, target);
    forall w ensures Bump(v, w) <==>
      FirstAt(w, major, minor, patch + 1) || FirstAt(w, major, minor + 1, 0) || FirstAt(w, major + 1, 0, 0)
    {
      BumpOfFinal(v, w);
    }
  }

  lemma BumpOfFinal(v: Version, w: Version)
    requires v.kind.Final?
    ensures Bump(v, w) <==>
      FirstAt(w, v.major, v.minor, v.patch + 1) || FirstAt(w, v.major, v.minor + 1, 0) || FirstAt(w, v.major + 1, 0, 0)
  {}

  lemma FirstsAt(major: nat, minor: nat, patch: nat, target: string)
    ensures target in FirstTexts(Decimal(major) + "." + Decimal(minor) + "." + Decimal(patch)) <==>
      exists w :: FirstAt(w, major, minor, patch) && target == Format(w)
  {
    hide Format, Decimal;
    FirstsWritten(major, minor, patch);
    var f, a, b, c := Version(major, minor, patch, Final, 0), Version(major, minor, patch, Alpha, 0),
      Version(major, minor, patch, Beta, 0), Version(major, minor, patch, Candidate, 0);
    assert FirstAt(f, major, minor, patch) && FirstAt(a, major, minor, patch) && FirstAt(b, major, minor, patch) && FirstAt(c, major, minor, patch);
    forall w | FirstAt(w, major, minor, patch) ensures w == f || w == a || w == b || w == c {
      match w.kind case Final => case Alpha => case Beta => case Candidate =>
    }
    var base := Decimal(major) + "." + Decimal(minor) + "." + Decimal(patch);
    assert FirstTexts(base) == {Format(f), Format(a), Format(b), Format(c)};
  }
}
