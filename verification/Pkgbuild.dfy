/** How PKGBUILD declarations accumulate: qualified names and their priorities, source
    and checksum lists kept per architecture until the end, functions that replace each
    other, and the overrides of split packages. */
module Pkgbuild {
  import opened Text

  // ---- qualified names ---------------------------------------------------------------

  /** The build system: its own architecture and what its distribution is called. */
  datatype System = System(arch: string, distro: string, fullDistro: string, packager: string,
                           distros: set<string>, packagers: set<string>)

  const ARCHITECTURES: set<string> := {
    "x86_64", "i686", "aarch64", "armv7h", "armv6h", "armv5", "ppc64", "ppc64le", "s390x", "mips", "mipsle",
    "riscv64", "pentium4", "any"}

  const SKIP := -1
  const BASE := 0
  const PACKAGER_MATCH := 1
  const DISTRO_MATCH := 2
  const FULL_DISTRO_MATCH := 3
  const ARCH_MATCH := 4
  const ARCH_DISTRO_BOOST := 4

  /** What a declaration's name says; invalid when it has too many qualifiers. */
  datatype Directive = Directive(key: string, priority: int, invalid: bool)

  /** The first position of "__", or -1. */
  function DoubleUnderscore(s: string): (r: int)
    ensures -1 <= r && (r >= 0 ==> r + 1 < |s| && s[r] == '_' && s[r + 1] == '_')
    ensures forall j :: 0 <= j < (if r < 0 then |s| - 1 else r) ==> s[j] != '_' || s[j + 1] != '_'
  {
    if |s| < 2 then -1
    else if s[0] == '_' && s[1] == '_' then 0
    else
      var r := DoubleUnderscore(s[1..]);
      if r < 0 then -1 else r + 1
  }

  function DistributionPriority(sys: System, directive: string): int {
    if directive == sys.fullDistro then FULL_DISTRO_MATCH
    else if directive in sys.distros && directive == sys.distro then DISTRO_MATCH
    else if directive in sys.packagers && directive == sys.packager then PACKAGER_MATCH
    else SKIP
  }

  function EffectiveArch(sys: System, target: string): string {
    if target == "" then sys.arch else target
  }

  /** The part before the first underscore, and a valid architecture after it. */
  function ArchSuffix(name: string): Option<(string, string)> {
    var i := IndexOf(name, '_');
    if i >= 0 && IsArchitecture(name[i + 1..]) then Some((name[..i], name[i + 1..])) else None
  }

  function ArchDirective(sys: System, target: string, key: string, arch: string, priority: int): Directive {
    Directive(key, if arch == EffectiveArch(sys, target) then priority else SKIP, false)
  }

  /** Of an architecture that fits together with this distribution. */
  function CombinedPriority(sys: System, directive: string): (p: int)
    ensures p == SKIP || ARCH_MATCH < p <= FULL_DISTRO_MATCH + ARCH_DISTRO_BOOST
  {
    var distro := DistributionPriority(sys, directive);
    if distro > BASE then distro + ARCH_DISTRO_BOOST else SKIP
  }

  function ParseDirective(sys: System, target: string, name: string): (d: Directive)
    ensures SKIP <= d.priority <= FULL_DISTRO_MATCH + ARCH_DISTRO_BOOST
  {
    hide ArchSuffix, DoubleUnderscore, EffectiveArch;
    var i := DoubleUnderscore(name);
    if i >= 0 then
      var head, tail := name[..i], name[i + 2..];
      match ArchSuffix(head)
      case Some((key, arch)) => ArchDirective(sys, target, key, arch, CombinedPriority(sys, tail))
      case None =>
        if DoubleUnderscore(tail) >= 0 then Directive(head, BASE, true)
        else if sys.fullDistro == "" then Directive(head, BASE, false)
        else Directive(head, DistributionPriority(sys, tail), false)
    else
      match ArchSuffix(name)
      case Some((key, arch)) => ArchDirective(sys, target, key, arch, ARCH_MATCH)
      case None => Directive(name, BASE, false)
  }

  lemma SingleUnderscores(key: string, arch: string)
    requires '_' !in key && arch != "" && arch[0] != '_' && DoubleUnderscore(arch) < 0
    ensures DoubleUnderscore(key + "_" + arch) < 0
  {
    var name := key + "_" + arch;
    forall p | 0 <= p < |name| - 1
      ensures name[p] != '_' || name[p + 1] != '_'
    {
      if p < |key| {
        assert name[p] == key[p];
      } else if p == |key| {
        assert name[p + 1] == arch[0];
      } else {
        assert name[p] == arch[p - |key| - 1] && name[p + 1] == arch[p - |key|];
      }
    }
  }

  lemma ArchNameParsed(sys: System, target: string, key: string, arch: string)
    requires '_' !in key && IsArchitecture(arch) && arch[0] != '_' && DoubleUnderscore(arch) < 0
    ensures var name := key + "_" + arch;
      DoubleUnderscore(name) < 0 && ParseDirective(sys, target, name) == ArchDirective(sys, target, key, arch, ARCH_MATCH)
  {
    var name := key + "_" + arch;
    SingleUnderscores(key, arch);
    IndexAfter(key, '_', arch);
    assert key + ['_'] + arch == name && name[..|key|] == key && name[|key| + 1..] == arch;
    hide IsArchitecture, DoubleUnderscore, ArchDirective, DistributionPriority, IndexOf;
  }

  lemma FirstDouble(head: string, tail: string)
    requires DoubleUnderscore(head + "_") < 0
    ensures DoubleUnderscore(head + "__" + tail) == |head|
  {
    var name := head + "__" + tail;
    assert name[|head|] == '_' && name[|head| + 1] == '_';
    forall p | 0 <= p < |head|
      ensures name[p] != '_' || name[p + 1] != '_'
    {
      assert name[p] == (head + "_")[p] && name[p + 1] == (head + "_")[p + 1];
    }
  }

  lemma DistroNameParsed(sys: System, target: string, key: string, distro: string)
    requires '_' !in key && DoubleUnderscore(distro) < 0
    ensures ParseDirective(sys, target, key + "__" + distro)
         == Directive(key, if sys.fullDistro == "" then BASE else DistributionPriority(sys, distro), false)
  {
    var name := key + "__" + distro;
    assert DoubleUnderscore(key + "_") < 0;
    FirstDouble(key, distro);
    assert name[..|key|] == key && name[|key| + 2..] == distro;
    assert IndexOf(key, '_') < 0;
    hide DoubleUnderscore, DistributionPriority, IndexOf;
  }

  lemma ArchOfHead(key: string, arch: string)
    requires '_' !in key && IsArchitecture(arch)
    ensures ArchSuffix(key + "_" + arch) == Some((key, arch))
  {
    var head := key + "_" + arch;
    IndexAfter(key, '_', arch);
    assert key + ['_'] + arch == head && head[..|key|] == key && head[|key| + 1..] == arch;
    hide IndexOf, IsArchitecture;
  }

  lemma FirstDoubleInName(key: string, arch: string, distro: string)
    requires '_' !in key && arch != "" && arch[0] != '_' && DoubleUnderscore(arch + "_") < 0
    ensures DoubleUnderscore(key + "_" + arch + "__" + distro) == |key + "_" + arch|
  {
    var head := key + "_" + arch;
    assert head + "_" == key + "_" + (arch + "_");
    SingleUnderscores(key, arch + "_");
    FirstDouble(head, distro);
    hide DoubleUnderscore;
  }

  lemma CombinedNameIs(sys: System, target: string, key: string, arch: string, distro: string)
    requires '_' !in key && arch != "" && arch[0] != '_' && DoubleUnderscore(arch + "_") < 0 && IsArchitecture(arch)
    ensures ParseDirective(sys, target, key + "_" + arch + "__" + distro)
         == ArchDirective(sys, target, key, arch, CombinedPriority(sys, distro))
  {
    var head := key + "_" + arch;
    var name := head + "__" + distro;
    FirstDoubleInName(key, arch, distro);
    ArchOfHead(key, arch);
    assert name[..|head|] == head && name[|head| + 2..] == distro;
    hide DoubleUnderscore, DistributionPriority, ArchSuffix, ArchDirective;
  }

  predicate IsPlainArchitecture(arch: string) {
    IsArchitecture(arch) && arch != "" && arch[0] != '_' && DoubleUnderscore(arch + "_") < 0 && DoubleUnderscore(arch) < 0
  }

  /** The more a name says, the higher it ranks: package manager, distribution, release,
      architecture, and architecture with each of them. */
  lemma QualifiersRank(sys: System, target: string, key: string, arch: string)
    requires '_' !in key && IsPlainArchitecture(arch) && arch == EffectiveArch(sys, target)
    requires sys.packager in sys.packagers && sys.distro in sys.distros && sys.fullDistro != ""
    requires sys.packager != sys.distro && sys.distro != sys.fullDistro && sys.packager != sys.fullDistro
    requires DoubleUnderscore(sys.packager) < 0 && DoubleUnderscore(sys.distro) < 0 && DoubleUnderscore(sys.fullDistro) < 0
    ensures var p := (name: string) => ParseDirective(sys, target, name).priority;
      && BASE < p(key + "__" + sys.packager) < p(key + "__" + sys.distro) < p(key + "__" + sys.fullDistro)
      && p(key + "__" + sys.fullDistro) < p(key + "_" + arch) < p(key + "_" + arch + "__" + sys.packager)
      && p(key + "_" + arch + "__" + sys.packager) < p(key + "_" + arch + "__" + sys.distro)
      && p(key + "_" + arch + "__" + sys.distro) < p(key + "_" + arch + "__" + sys.fullDistro)
  {
    hide ParseDirective, DoubleUnderscore, IsArchitecture, EffectiveArch;
    DistroNameParsed(sys, target, key, sys.packager);
    DistroNameParsed(sys, target, key, sys.distro);
    DistroNameParsed(sys, target, key, sys.fullDistro);
    ArchNameParsed(sys, target, key, arch);
    CombinedNameIs(sys, target, key, arch, sys.packager);
    CombinedNameIs(sys, target, key, arch, sys.distro);
    CombinedNameIs(sys, target, key, arch, sys.fullDistro);
  }

  // ---- what a PKGBUILD holds -------------------------------------------------------------

  datatype Value = Scalar(text: string) | Array(items: seq<string>) | Body(code: string)

  const SCALARS: set<string> := {
    "pkgname", "pkgbase", "epoch", "pkgver", "pkgrel", "pkgdesc", "maintainer", "section", "priority", "url", "origin",
    "commit", "debconf_template", "debconf_config", "install", "changelog", "target_arch", "build_arch", "host_arch",
    "multiarch", "source_pkg", "bugs"}

  const ARRAYS: set<string> := {
    "arch", "copyright", "license", "depends", "options", "optdepends", "makedepends", "provides", "conflicts",
    "enhances", "supplements", "replaces", "breaks", "predepends", "suggests", "builtusing", "source", "noextract",
    "backup", "pkgname"}

  const CHECKSUMS: set<string> := {"sha512sums", "sha384sums", "sha256sums", "sha224sums", "b2sums", "cksums"}

  const HOOKS: set<string> := {
    "build", "check", "package", "preinst", "prepare", "postinst", "posttrans", "prerm", "pretrans", "postrm",
    "pre_upgrade", "post_upgrade"}

  predicate IsScalar(key: string) { key in SCALARS }

  predicate IsArray(key: string) { key in ARRAYS }

  predicate IsChecksum(key: string) { key in CHECKSUMS }

  predicate IsHook(key: string) { key in HOOKS }

  predicate IsSource(key: string) { key == "source" }

  predicate IsName(key: string) { key == "pkgname" }

  predicate IsTarget(key: string) { key == "target_arch" }

  predicate IsArchitecture(name: string) { name in ARCHITECTURES }

  /** A place a value is kept: a field of the PKGBUILD, named by the variable or
      function that sets it, or an entry of one of its maps. */
  datatype Slot =
    | ScalarField(name: string) | ArrayField(name: string) | HashSums
    | CustomVariable(name: string) | CustomArray(name: string)
    | Hook(name: string) | SplitPackageFunc(name: string) | HelperFunction(name: string)

  /** The values kept, the lists waiting for Finalize, and the best priority seen per key. */
  datatype Spec = Spec(values: map<Slot, Value>, archSources: seq<string>, archHashSums: seq<string>,
                       priorities: map<string, int>)

  /** Nothing declared yet; the command line may have set the target architecture. */
  predicate Fresh(s: Spec) {
    && s.archSources == [] && s.archHashSums == [] && s.priorities == map[]
    && forall slot :: slot in s.values ==> slot == ScalarField("target_arch")
  }

  function ScalarAt(s: Spec, slot: Slot): string {
    if slot in s.values && s.values[slot].Scalar? then s.values[slot].text else ""
  }

  function ListAt(s: Spec, slot: Slot): seq<string> {
    if slot in s.values && s.values[slot].Array? then s.values[slot].items else []
  }

  function Priority(s: Spec, key: string): int {
    if key in s.priorities then s.priorities[key] else BASE
  }

  function TargetArch(s: Spec): string {
    ScalarAt(s, ScalarField("target_arch"))
  }

  // ---- one declaration ---------------------------------------------------------------------

  function Put(s: Spec, slot: Slot, v: Value): Spec {
    s.(values := s.values[slot := v])
  }

  /** A target architecture given on the command line is not replaced. */
  function MapVariable(s: Spec, key: string, v: Value): Spec {
    if !IsScalar(key) then Put(s, CustomVariable(key), v)
    else if IsTarget(key) && TargetArch(s) != "" then s
    else Put(s, ScalarField(key), v)
  }

  function MapArray(s: Spec, key: string, items: seq<string>, priority: int): Spec {
    if IsChecksum(key) then
      if priority > BASE then s.(archHashSums := s.archHashSums + items) else Put(s, HashSums, Array(items))
    else if !IsArray(key) then Put(s, CustomArray(key), Array(items))
    else if IsSource(key) && priority > BASE then s.(archSources := s.archSources + items)
    else
      var t := Put(s, ArrayField(key), Array(items));
      if IsName(key) && items != [] then Put(t, ScalarField(key), Scalar(items[0])) else t
  }

  function FunctionSlot(key: string): Slot {
    if IsHook(key) then Hook(key)
    else if "package_" <= key then SplitPackageFunc(key[8..])
    else HelperFunction(key)
  }

  function MapValue(s: Spec, key: string, v: Value, priority: int, seen: int): Spec {
    match v
    case Scalar(_) => MapVariable(s, key, v)
    case Array(items) => MapArray(s, key, items, priority)
    case Body(_) => if priority >= seen then Put(s, FunctionSlot(key), v) else s
  }

  function Raise(s: Spec, key: string, priority: int): Spec {
    if priority > Priority(s, key) then s.(priorities := s.priorities[key := priority]) else s
  }

  /** A declaration with its name taken apart. */
  datatype Decl = Decl(key: string, priority: int, value: Value)

  function Apply(s: Spec, d: Decl): Spec {
    var seen := Priority(s, d.key);
    if d.priority < seen && d.priority != BASE then s
    else MapValue(Raise(s, d.key, d.priority), d.key, d.value, d.priority, seen)
  }

  datatype Item = Item(name: string, value: Value)

  function AddItem(sys: System, s: Spec, item: Item): Spec {
    var d := ParseDirective(sys, TargetArch(s), item.name);
    if d.invalid || d.priority == SKIP then s else Apply(s, Decl(d.key, d.priority, item.value))
  }

  function AddItems(sys: System, s: Spec, items: seq<Item>): Spec {
    if items == [] then s else AddItem(sys, AddItems(sys, s, items[..|items| - 1]), items[|items| - 1])
  }

  function ApplyAll(s: Spec, ds: seq<Decl>): Spec {
    if ds == [] then s else Apply(ApplyAll(s, ds[..|ds| - 1]), ds[|ds| - 1])
  }

  /** The declarations that apply on this system, in order. The target architecture may
      itself be declared along the way. */
  function Applicable(sys: System, s: Spec, items: seq<Item>): seq<Decl> {
    if items == [] then []
    else
      var init, last := items[..|items| - 1], items[|items| - 1];
      var d := ParseDirective(sys, TargetArch(AddItems(sys, s, init)), last.name);
      Applicable(sys, s, init) + (if d.invalid || d.priority == SKIP then [] else [Decl(d.key, d.priority, last.value)])
  }

  const SOURCES := ArrayField("source")

  function Finalize(s: Spec): Spec {
    Spec(s.values[SOURCES := Array(ListAt(s, SOURCES) + s.archSources)][HashSums := Array(ListAt(s, HashSums) + s.archHashSums)],
         [], [], s.priorities)
  }

  lemma {:induction false} AddItemsApplies(sys: System, s: Spec, items: seq<Item>)
    ensures AddItems(sys, s, items) == ApplyAll(s, Applicable(sys, s, items))
    ensures forall d :: d in Applicable(sys, s, items) ==> d.priority >= BASE
  {
    if items != [] {
      var init, last := items[..|items| - 1], items[|items| - 1];
      AddItemsApplies(sys, s, init);
      hide Apply, ParseDirective;
      var ds, all := Applicable(sys, s, init), Applicable(sys, s, items);
      if all != ds {
        assert all[..|all| - 1] == ds;
      }
    }
  }

  // ---- which declarations apply ---------------------------------------------------------------

  /** No known architecture's name looks like two qualifiers. */
  lemma ArchitecturesArePlain(arch: string)
    requires IsArchitecture(arch)
    ensures IsPlainArchitecture(arch)
  {
    var i := if arch == "x86_64" then 3 else |arch|;
    assert forall j :: 0 <= j < |arch| && j != i ==> arch[j] != '_';
    assert arch != "" && arch[0] != '_' && arch[|arch| - 1] != '_';
    OneUnderscore(arch, i);
    OneUnderscore(arch + "_", i);
  }

  lemma OneUnderscore(s: string, i: nat)
    requires forall j :: 0 <= j < |s| - 1 && j != i ==> s[j] != '_'
    requires i + 1 < |s| ==> s[i + 1] != '_'
    ensures DoubleUnderscore(s) < 0
  {
  }

  /** The architecture built for: the target's, if one is set, else the system's own. */
  predicate BuildsFor(sys: System, s: Spec, arch: string) {
    arch == if TargetArch(s) != "" then TargetArch(s) else sys.arch
  }

  /** How a distribution qualifier fits this system: not at all, by package manager, by
      distribution, or by distribution and release. */
  function Fit(sys: System, d: string): int {
    if d == sys.fullDistro then 3
    else if d in sys.distros && d == sys.distro then 2
    else if d in sys.packagers && d == sys.packager then 1
    else 0
  }

  lemma AddedAsParsed(sys: System, s: Spec, item: Item, d: Directive)
    requires ParseDirective(sys, TargetArch(s), item.name) == d
    ensures AddItem(sys, s, item) == if d.invalid || d.priority == SKIP then s else Apply(s, Decl(d.key, d.priority, item.value))
  {
    hide ParseDirective, Apply, TargetArch;
  }

  lemma FitIsPriority(sys: System, d: string)
    ensures DistributionPriority(sys, d) == if Fit(sys, d) > 0 then Fit(sys, d) else SKIP
    ensures 0 <= Fit(sys, d) <= 3
  {
  }

  lemma ArchFits(sys: System, s: Spec, key: string, arch: string, priority: int)
    ensures ArchDirective(sys, TargetArch(s), key, arch, priority)
         == Directive(key, if BuildsFor(sys, s, arch) then priority else SKIP, false)
  {
    hide TargetArch;
  }

  /** "key_arch" is dropped unless built for that architecture. */
  lemma OtherArchIsSkipped(sys: System, s: Spec, key: string, arch: string, v: Value)
    requires '_' !in key && IsArchitecture(arch)
    ensures AddItem(sys, s, Item(key + "_" + arch, v)) == if BuildsFor(sys, s, arch) then Apply(s, Decl(key, 4, v)) else s
  {
    ArchitecturesArePlain(arch);
    ArchNameParsed(sys, TargetArch(s), key, arch);
    ArchFits(sys, s, key, arch, ARCH_MATCH);
    AddedAsParsed(sys, s, Item(key + "_" + arch, v), ArchDirective(sys, TargetArch(s), key, arch, ARCH_MATCH));
    hide *;
  }

  /** "key__d" is dropped unless d fits the system; on a system whose release is not known
      it counts as unqualified. */
  lemma OtherDistroIsSkipped(sys: System, s: Spec, key: string, d: string, v: Value)
    requires '_' !in key && DoubleUnderscore(d) < 0
    ensures AddItem(sys, s, Item(key + "__" + d, v)) ==
      if sys.fullDistro == "" then Apply(s, Decl(key, 0, v))
      else if Fit(sys, d) > 0 then Apply(s, Decl(key, Fit(sys, d), v)) else s
  {
    assert BASE == 0 && SKIP == -1;
    hide *;
    FitIsPriority(sys, d);
    var item := Item(key + "__" + d, v);
    DistroNameParsed(sys, TargetArch(s), key, d);
    AddedAsParsed(sys, s, item, Directive(key, if sys.fullDistro == "" then BASE else DistributionPriority(sys, d), false));
  }

  /** A name with two distribution qualifiers is dropped. */
  lemma TwoDistrosAreSkipped(sys: System, s: Spec, key: string, d: string, j: nat, v: Value)
    requires '_' !in key && j + 1 < |d| && d[j] == d[j + 1] == '_'
    ensures AddItem(sys, s, Item(key + "__" + d, v)) == s
  {
    TwoDistrosParsed(sys, TargetArch(s), key, d, j);
    AddedAsParsed(sys, s, Item(key + "__" + d, v), Directive(key, BASE, true));
    hide *;
  }

  lemma TwoDistrosParsed(sys: System, target: string, key: string, d: string, j: nat)
    requires '_' !in key && j + 1 < |d| && d[j] == d[j + 1] == '_'
    ensures ParseDirective(sys, target, key + "__" + d) == Directive(key, BASE, true)
  {
    var name := key + "__" + d;
    assert DoubleUnderscore(key + "_") < 0;
    FirstDouble(key, d);
    assert name[..|key|] == key && name[|key| + 2..] == d;
    assert IndexOf(key, '_') < 0 && DoubleUnderscore(d) >= 0;
    hide DoubleUnderscore, DistributionPriority, IndexOf;
  }

  /** "key_arch__d" is dropped unless both fit. */
  lemma OtherArchOrDistroIsSkipped(sys: System, s: Spec, key: string, arch: string, d: string, v: Value)
    requires '_' !in key && IsArchitecture(arch)
    ensures AddItem(sys, s, Item(key + "_" + arch + "__" + d, v)) ==
      if BuildsFor(sys, s, arch) && Fit(sys, d) > 0 then Apply(s, Decl(key, 4 + Fit(sys, d), v)) else s
  {
    ArchitecturesArePlain(arch);
    FitIsPriority(sys, d);
    CombinedNameIs(sys, TargetArch(s), key, arch, d);
    var p := CombinedPriority(sys, d);
    assert p == if Fit(sys, d) > 0 then 4 + Fit(sys, d) else SKIP;
    ArchFits(sys, s, key, arch, p);
    AddedAsParsed(sys, s, Item(key + "_" + arch + "__" + d, v), ArchDirective(sys, TargetArch(s), key, arch, p));
    hide *;
  }

  /** An unqualified name always applies. */
  lemma PlainApplies(sys: System, s: Spec, key: string, v: Value)
    requires '_' !in key
    ensures AddItem(sys, s, Item(key, v)) == Apply(s, Decl(key, 0, v))
  {
    UnqualifiedParsed(sys, TargetArch(s), key);
    hide ParseDirective, Apply, TargetArch;
  }

  /** So does one whose underscore does not set off an architecture, like "pre_upgrade". */
  lemma UnderscoredApplies(sys: System, s: Spec, front: string, back: string, v: Value)
    requires '_' !in front && !IsArchitecture(back) && DoubleUnderscore(front + "_" + back) < 0
    ensures AddItem(sys, s, Item(front + "_" + back, v)) == Apply(s, Decl(front + "_" + back, 0, v))
  {
    var name := front + "_" + back;
    IndexAfter(front, '_', back);
    assert front + ['_'] + back == name && name[|front| + 1..] == back;
    hide IndexOf, DoubleUnderscore, IsArchitecture, Apply, TargetArch, DistributionPriority;
  }

  // ---- where a declaration is kept -------------------------------------------------------------

  /** An accepted declaration of an unknown name is kept under its name. */
  lemma UnknownNamesAreKept(s: Spec, d: Decl)
    requires !Outranked(s, d)
    ensures d.value.Scalar? && !IsScalar(d.key) ==> ScalarAt(Apply(s, d), CustomVariable(d.key)) == d.value.text
    ensures d.value.Array? && !IsArray(d.key) && !IsChecksum(d.key) ==> ListAt(Apply(s, d), CustomArray(d.key)) == d.value.items
  {
    hide IsScalar, IsArray, IsChecksum, IsSource, IsName, IsTarget;
  }

  /** The target architecture is set once. */
  lemma FirstTargetStays(s: Spec, d: Decl)
    requires !Outranked(s, d) && d.value.Scalar? && d.key == "target_arch"
    ensures TargetArch(Apply(s, d)) == if TargetArch(s) != "" then TargetArch(s) else d.value.text
  {
    assert IsScalar("target_arch");
    hide IsScalar;
  }

  /** The first name of a list of package names is the package's name. */
  lemma FirstNameIsPkgname(s: Spec, d: Decl)
    requires !Outranked(s, d) && d.value.Array? && d.key == "pkgname" && d.value.items != []
    ensures ScalarAt(Apply(s, d), ScalarField("pkgname")) == d.value.items[0]
    ensures ListAt(Apply(s, d), ArrayField("pkgname")) == d.value.items
  {
    assert IsArray("pkgname") && !IsChecksum("pkgname");
    hide IsArray, IsChecksum;
  }

  /** Which kind of function a name declares. */
  lemma FunctionsAreFiled(key: string, sub: string)
    ensures IsHook(key) ==> FunctionSlot(key) == Hook(key)
    ensures key == "package_" + sub && !IsHook(key) ==> FunctionSlot(key) == SplitPackageFunc(sub)
    ensures !IsHook(key) && !("package_" <= key) ==> FunctionSlot(key) == HelperFunction(key)
    ensures IsHook("build") && IsHook("package") && IsHook("prepare")
  {
    assert key == "package_" + sub ==> key[8..] == sub && "package_" <= key;
  }

  // ---- what a run of declarations leaves ------------------------------------------------------

  function Max(a: int, b: int): int {
    if a < b then b else a
  }

  /** The highest priority declared for a key, BASE at least. */
  function Highest(ds: seq<Decl>, key: string): (r: int)
    ensures r >= BASE
  {
    if ds == [] then BASE
    else
      var rest, last := Highest(ds[..|ds| - 1], key), ds[|ds| - 1];
      if last.key == key then Max(rest, last.priority) else rest
  }

  /** Declaration i is not outranked by an earlier one. */
  predicate Accepted(ds: seq<Decl>, i: nat)
    requires i < |ds|
  {
    ds[i].priority == BASE || ds[i].priority >= Highest(ds[..i], ds[i].key)
  }

  /** From nothing, declarations that apply on this system. */
  ghost predicate AllApply(ds: seq<Decl>) {
    forall d :: d in ds ==> d.priority >= BASE
  }

  lemma Unsnoc(s: Spec, ds: seq<Decl>)
    requires ds != []
    ensures ApplyAll(s, ds) == Apply(ApplyAll(s, ds[..|ds| - 1]), ds[|ds| - 1])
    ensures AllApply(ds) ==> AllApply(ds[..|ds| - 1])
  {
    hide Apply;
  }

  lemma MapKeepsPriorities(s: Spec, d: Decl, seen: int)
    ensures MapValue(s, d.key, d.value, d.priority, seen).priorities == s.priorities
  {
    hide IsScalar, IsArray, IsChecksum, IsHook, IsSource, IsName, IsTarget, FunctionSlot, TargetArch;
  }

  lemma {:induction false} PriorityIsHighest(s0: Spec, ds: seq<Decl>, key: string)
    requires Fresh(s0) && AllApply(ds)
    ensures Priority(ApplyAll(s0, ds), key) == Highest(ds, key)
  {
    if ds != [] {
      Unsnoc(s0, ds);
      var init, d := ds[..|ds| - 1], ds[|ds| - 1];
      assert d in ds;
      PriorityIsHighest(s0, init, key);
      PriorityIsHighest(s0, init, d.key);
      var s := ApplyAll(s0, init);
      MapKeepsPriorities(Raise(s, d.key, d.priority), d, Priority(s, d.key));
      hide MapValue, ApplyAll, AllApply;
    }
  }

  /** A declaration can only change the slots of its own key and kind. */
  predicate Touches(d: Decl, slot: Slot) {
    match slot
    case ScalarField(n) => n == d.key && !d.value.Body?
    case ArrayField(n) => n == d.key && d.value.Array?
    case HashSums => d.value.Array? && IsChecksum(d.key)
    case CustomVariable(n) => n == d.key && d.value.Scalar?
    case CustomArray(n) => n == d.key && d.value.Array?
    case _ => d.value.Body? && slot == FunctionSlot(d.key)
  }

  ghost predicate SameSlot(s: Spec, t: Spec, slot: Slot) {
    (slot in s.values <==> slot in t.values) && (slot in s.values ==> s.values[slot] == t.values[slot])
  }

  lemma VariableTouches(s: Spec, d: Decl, slot: Slot)
    requires !Touches(d, slot) && d.value.Scalar?
    ensures SameSlot(s, MapVariable(s, d.key, d.value), slot)
  {
    hide IsScalar, IsChecksum, IsTarget, TargetArch, FunctionSlot;
  }

  lemma ArrayTouches(s: Spec, d: Decl, slot: Slot)
    requires !Touches(d, slot) && d.value.Array?
    ensures SameSlot(s, MapArray(s, d.key, d.value.items, d.priority), slot)
  {
    hide IsArray, IsChecksum, IsSource, IsName, FunctionSlot;
  }

  lemma OthersUntouched(s: Spec, d: Decl, slot: Slot)
    requires !Touches(d, slot)
    ensures SameSlot(s, Apply(s, d), slot)
  {
    var t := Raise(s, d.key, d.priority);
    assert t.values == s.values;
    if d.value.Scalar? {
      VariableTouches(t, d, slot);
    } else if d.value.Array? {
      ArrayTouches(t, d, slot);
    }
    hide Raise, MapVariable, MapArray, FunctionSlot, IsChecksum;
  }

  predicate Outranked(s: Spec, d: Decl) {
    d.priority != BASE && d.priority < Priority(s, d.key)
  }

  lemma ArrayStep(s: Spec, d: Decl)
    requires d.value.Array? && IsArray(d.key) && !IsChecksum(d.key) && !IsSource(d.key)
    ensures if Outranked(s, d) then Apply(s, d) == s else ListAt(Apply(s, d), ArrayField(d.key)) == d.value.items
  {
    hide IsArray, IsChecksum, IsSource, IsName;
  }

  lemma AcceptedInPrefix(ds: seq<Decl>, n: nat, j: nat)
    requires j < n <= |ds|
    ensures Accepted(ds[..n], j) == Accepted(ds, j)
  {
    assert ds[..n][..j] == ds[..j];
    hide Highest;
  }

  lemma ScalarStep(s: Spec, d: Decl)
    requires d.value.Scalar? && IsScalar(d.key) && !IsTarget(d.key)
    ensures if Outranked(s, d) then Apply(s, d) == s else ScalarAt(Apply(s, d), ScalarField(d.key)) == d.value.text
  {
    hide IsScalar, IsTarget, TargetArch;
  }

  lemma FunctionSlotsDiffer(k: string, l: string)
    requires FunctionSlot(k) == FunctionSlot(l)
    ensures k == l
  {
    hide IsHook;
    if FunctionSlot(k).SplitPackageFunc? {
      assert k == "package_" + k[8..] && l == "package_" + l[8..];
    }
  }

  lemma {:induction false} HighestIsBound(ds: seq<Decl>, key: string, p: int)
    requires p >= BASE && forall j :: 0 <= j < |ds| && ds[j].key == key ==> ds[j].priority <= p
    ensures Highest(ds, key) <= p
  {
    if ds != [] {
      HighestIsBound(ds[..|ds| - 1], key, p);
    }
  }

  lemma {:induction false} HighestIsReached(ds: seq<Decl>, j: nat)
    requires j < |ds|
    ensures ds[j].priority <= Highest(ds, ds[j].key)
  {
    if j < |ds| - 1 {
      HighestIsReached(ds[..|ds| - 1], j);
    }
  }

  // ---- functions: the last of the highest priority wins -----------------------------------------

  /** No declaration of its key outranks number i, and none after it equals it. */
  ghost predicate Wins(ds: seq<Decl>, i: nat)
    requires i < |ds|
  {
    && (forall j :: 0 <= j < i && ds[j].key == ds[i].key ==> ds[j].priority <= ds[i].priority)
    && (forall j :: i < j < |ds| && ds[j].key == ds[i].key ==> ds[j].priority < ds[i].priority)
  }

  lemma {:induction false} HighestFunctionWins(s0: Spec, ds: seq<Decl>, i: nat)
    requires Fresh(s0) && AllApply(ds) && i < |ds| && Wins(ds, i)
    requires forall j :: 0 <= j < |ds| && ds[j].key == ds[i].key ==> ds[j].value.Body?
    ensures var s, slot := ApplyAll(s0, ds), FunctionSlot(ds[i].key);
      slot in s.values && s.values[slot] == ds[i].value
  {
    var n := |ds| - 1;
    var init, d, key := ds[..n], ds[n], ds[i].key;
    var slot := FunctionSlot(key);
    Unsnoc(s0, ds);
    PriorityIsHighest(s0, init, d.key);
    assert d in ds && ds[i] in ds;
    hide ApplyAll, AllApply, FunctionSlot;
    if i == n {
      HighestIsBound(init, key, d.priority);
    } else {
      HighestFunctionWins(s0, init, i);
      if d.key != key {
        if FunctionSlot(d.key) == slot {
          FunctionSlotsDiffer(d.key, key);
        }
        SlotIsFunction(key);
        OthersUntouched(ApplyAll(s0, init), d, slot);
      } else {
        HighestIsReached(init, i);
      }
    }
  }

  lemma SlotIsFunction(key: string)
    ensures var slot := FunctionSlot(key); slot.Hook? || slot.SplitPackageFunc? || slot.HelperFunction?
  {
    hide IsHook;
  }

  // ---- other variables: the last accepted declaration wins -----------------------------------------

  /** What the last declaration does to a slot: nothing when it does not touch it or is
      not accepted, else it sets it. */
  lemma LastStep(s0: Spec, ds: seq<Decl>, slot: Slot)
    requires Fresh(s0) && AllApply(ds) && ds != []
    requires slot.ArrayField? ==> IsArray(slot.name) && !IsChecksum(slot.name) && !IsSource(slot.name)
    requires slot.ScalarField? ==> IsScalar(slot.name) && !IsTarget(slot.name)
    ensures var n := |ds| - 1;
      var s, t, d := ApplyAll(s0, ds[..n]), ApplyAll(s0, ds), ds[n];
      && AllApply(ds[..n])
      && (!Touches(d, slot) || !Accepted(ds, n) ==> SameSlot(s, t, slot))
      && (slot.ArrayField? && Touches(d, slot) && Accepted(ds, n) ==> ListAt(t, slot) == d.value.items)
      && (slot.ScalarField? && Touches(d, slot) && d.value.Scalar? && Accepted(ds, n) ==> ScalarAt(t, slot) == d.value.text)
  {
    var n := |ds| - 1;
    var s, d := ApplyAll(s0, ds[..n]), ds[n];
    Unsnoc(s0, ds);
    PriorityIsHighest(s0, ds[..n], d.key);
    assert Accepted(ds, n) <==> !Outranked(s, d);
    NotAcceptedNothing(s, d);
    hide ApplyAll, AllApply, IsScalar, IsTarget, IsArray, IsChecksum, IsSource, Highest, Fresh, Priority, Accepted, Outranked, Apply;
    if !Touches(d, slot) {
      OthersUntouched(s, d, slot);
    } else if slot.ArrayField? {
      ArrayStep(s, d);
    } else if slot.ScalarField? && d.value.Scalar? {
      ScalarStep(s, d);
    }
  }

  lemma NotAcceptedNothing(s: Spec, d: Decl)
    ensures Outranked(s, d) ==> Apply(s, d) == s
  {
    hide Priority;
  }

  lemma {:induction false} LastAcceptedArray(s0: Spec, ds: seq<Decl>, i: nat)
    requires Fresh(s0) && AllApply(ds) && i < |ds| && Accepted(ds, i) && ds[i].value.Array?
    requires var k := ds[i].key; IsArray(k) && !IsChecksum(k) && !IsSource(k)
    requires forall j :: i < j < |ds| && ds[j].key == ds[i].key && ds[j].value.Array? ==> !Accepted(ds, j)
    ensures ListAt(ApplyAll(s0, ds), ArrayField(ds[i].key)) == ds[i].value.items
  {
    var n := |ds| - 1;
    hide ApplyAll, AllApply, Apply, IsArray, IsChecksum, IsSource, Highest, Fresh, Priority;
    LastStep(s0, ds, ArrayField(ds[i].key));
    if i < n {
      forall j | 0 <= j < n
        ensures Accepted(ds[..n], j) == Accepted(ds, j)
      {
        AcceptedInPrefix(ds, n, j);
      }
      hide Accepted, Touches;
      LastAcceptedArray(s0, ds[..n], i);
    }
  }

  lemma {:induction false} LastAcceptedScalar(s0: Spec, ds: seq<Decl>, i: nat)
    requires Fresh(s0) && AllApply(ds) && i < |ds| && Accepted(ds, i) && ds[i].value.Scalar?
    requires var k := ds[i].key; IsScalar(k) && !IsTarget(k)
    requires forall j :: 0 <= j < |ds| && ds[j].key == ds[i].key ==> ds[j].value.Scalar?
    requires forall j :: i < j < |ds| && ds[j].key == ds[i].key ==> !Accepted(ds, j)
    ensures ScalarAt(ApplyAll(s0, ds), ScalarField(ds[i].key)) == ds[i].value.text
  {
    var n := |ds| - 1;
    hide ApplyAll, AllApply, Apply, IsScalar, IsTarget, Highest, Fresh, Priority;
    LastStep(s0, ds, ScalarField(ds[i].key));
    if i < n {
      forall j | 0 <= j < n
        ensures Accepted(ds[..n], j) == Accepted(ds, j)
      {
        AcceptedInPrefix(ds, n, j);
      }
      hide Accepted, Touches;
      LastAcceptedScalar(s0, ds[..n], i);
    }
  }

  /** After the highest-ranked declaration of a key exactly the unqualified ones of that
      key are still accepted. */
  lemma AcceptedAfterHighest(ds: seq<Decl>, i: nat)
    requires AllApply(ds) && i < |ds| && Wins(ds, i)
    ensures Accepted(ds, i)
    ensures forall j :: i < j < |ds| && ds[j].key == ds[i].key ==> (Accepted(ds, j) <==> ds[j].priority == BASE)
  {
    assert ds[i] in ds;
    HighestIsBound(ds[..i], ds[i].key, ds[i].priority);
    forall j | i < j < |ds| && ds[j].key == ds[i].key
      ensures Accepted(ds, j) <==> ds[j].priority == BASE
    {
      assert ds[..j][i] == ds[i];
      HighestIsReached(ds[..j], i);
    }
  }

  /** Declaration j sets key to an array, or a scalar, without qualifier. */
  predicate PlainArray(ds: seq<Decl>, key: string, j: nat)
    requires j < |ds|
  {
    ds[j].key == key && ds[j].value.Array? && ds[j].priority == BASE
  }

  predicate PlainScalar(ds: seq<Decl>, key: string, j: nat)
    requires j < |ds|
  {
    ds[j].key == key && ds[j].value.Scalar? && ds[j].priority == BASE
  }

  predicate LastPlainArray(ds: seq<Decl>, key: string, j: nat)
    requires j < |ds|
  {
    PlainArray(ds, key, j) && forall l :: j < l < |ds| ==> !PlainArray(ds, key, l)
  }

  predicate LastPlainScalar(ds: seq<Decl>, key: string, j: nat)
    requires j < |ds|
  {
    PlainScalar(ds, key, j) && forall l :: j < l < |ds| ==> !PlainScalar(ds, key, l)
  }

  /** The value an array variable ends up with: that of the highest-ranked declaration
      when no unqualified one follows, else that of the last unqualified one. */
  lemma HighestArrayCounts(s0: Spec, ds: seq<Decl>, i: nat)
    requires Fresh(s0) && AllApply(ds) && i < |ds| && Wins(ds, i) && ds[i].value.Array?
    requires var k := ds[i].key; IsArray(k) && !IsChecksum(k) && !IsSource(k)
    ensures var key := ds[i].key;
      var kept := ListAt(ApplyAll(s0, ds), ArrayField(key));
      && ((forall j :: i < j < |ds| ==> !PlainArray(ds, key, j)) ==> kept == ds[i].value.items)
      && (forall j :: i < j < |ds| && LastPlainArray(ds, key, j) ==> kept == ds[j].value.items)
  {
    hide ApplyAll, AllApply, IsArray, IsChecksum, IsSource, Fresh, Accepted, Wins, Apply, Highest;
    AcceptedAfterHighest(ds, i);
    var key := ds[i].key;
    if forall j :: i < j < |ds| ==> !PlainArray(ds, key, j) {
      forall l | i < l < |ds| && ds[l].key == key && ds[l].value.Array?
        ensures !Accepted(ds, l)
      {
        assert PlainArray(ds, key, l) <==> ds[l].priority == BASE;
      }
      LastAcceptedArray(s0, ds, i);
    }
    forall j | i < j < |ds| && LastPlainArray(ds, key, j)
      ensures ListAt(ApplyAll(s0, ds), ArrayField(key)) == ds[j].value.items
    {
      forall l | j < l < |ds| && ds[l].key == key && ds[l].value.Array?
        ensures !Accepted(ds, l)
      {
        assert PlainArray(ds, key, l) <==> ds[l].priority == BASE;
      }
      LastAcceptedArray(s0, ds, j);
    }
  }

  lemma HighestScalarCounts(s0: Spec, ds: seq<Decl>, i: nat)
    requires Fresh(s0) && AllApply(ds) && i < |ds| && Wins(ds, i)
    requires var k := ds[i].key; IsScalar(k) && !IsTarget(k)
    requires forall j :: 0 <= j < |ds| && ds[j].key == ds[i].key ==> ds[j].value.Scalar?
    ensures var key := ds[i].key;
      var kept := ScalarAt(ApplyAll(s0, ds), ScalarField(key));
      && ((forall j :: i < j < |ds| ==> !PlainScalar(ds, key, j)) ==> kept == ds[i].value.text)
      && (forall j :: i < j < |ds| && LastPlainScalar(ds, key, j) ==> kept == ds[j].value.text)
  {
    hide ApplyAll, AllApply, IsScalar, IsTarget, Fresh, Accepted, Wins, Apply, Highest;
    AcceptedAfterHighest(ds, i);
    var key := ds[i].key;
    if forall j :: i < j < |ds| ==> !PlainScalar(ds, key, j) {
      forall l | i < l < |ds| && ds[l].key == key
        ensures !Accepted(ds, l)
      {
        assert PlainScalar(ds, key, l) <==> ds[l].priority == BASE;
      }
      LastAcceptedScalar(s0, ds, i);
    }
    forall j | i < j < |ds| && LastPlainScalar(ds, key, j)
      ensures ScalarAt(ApplyAll(s0, ds), ScalarField(key)) == ds[j].value.text
    {
      forall l | j < l < |ds| && ds[l].key == key
        ensures !Accepted(ds, l)
      {
        assert PlainScalar(ds, key, l) <==> ds[l].priority == BASE;
      }
      LastAcceptedScalar(s0, ds, j);
    }
  }

  lemma {:induction false} FindLastPlain(ds: seq<Decl>, key: string, i: nat, n: nat) returns (j: nat)
    requires i < n <= |ds| && PlainArray(ds, key, i) && forall l :: n <= l < |ds| ==> !PlainArray(ds, key, l)
    ensures i <= j < n && LastPlainArray(ds, key, j)
    decreases n
  {
    if PlainArray(ds, key, n - 1) {
      j := n - 1;
    } else {
      j := FindLastPlain(ds, key, i, n - 1);
    }
  }

  /** The highest-ranked value of an array variable is the one kept exactly when no
      unqualified declaration follows it, or the last that does says the same. */
  lemma HighestCountsExactly(s0: Spec, ds: seq<Decl>, i: nat)
    requires Fresh(s0) && AllApply(ds) && i < |ds| && Wins(ds, i) && ds[i].value.Array?
    requires var k := ds[i].key; IsArray(k) && !IsChecksum(k) && !IsSource(k)
    ensures ListAt(ApplyAll(s0, ds), ArrayField(ds[i].key)) == ds[i].value.items
       <==> forall j :: i < j < |ds| && LastPlainArray(ds, ds[i].key, j) ==> ds[j].value.items == ds[i].value.items
  {
    var key := ds[i].key;
    hide ApplyAll, AllApply, IsArray, IsChecksum, IsSource, Fresh, Wins;
    HighestArrayCounts(s0, ds, i);
    if j :| i < j < |ds| && PlainArray(ds, key, j) {
      var l := FindLastPlain(ds, key, j, |ds|);
    }
  }

  lemma UnqualifiedParsed(sys: System, target: string, key: string)
    requires '_' !in key
    ensures ParseDirective(sys, target, key) == Directive(key, BASE, false)
  {
    assert DoubleUnderscore(key) < 0 && IndexOf(key, '_') < 0;
    hide DoubleUnderscore, IndexOf;
  }

  /** On a matching distribution "depends__ubuntu" loses to a plain "depends" after it,
      and wins over one before it. */
  lemma PlainAfterDistroCounts(sys: System, s: Spec, key: string, distro: string, a: seq<string>, b: seq<string>)
    requires IsArray(key) && !IsChecksum(key) && !IsSource(key) && '_' !in key
    requires sys.fullDistro != "" && DoubleUnderscore(distro) < 0 && Fit(sys, distro) > 0 && Priority(s, key) <= Fit(sys, distro)
    ensures var q, p := Item(key + "__" + distro, Array(a)), Item(key, Array(b));
      && ListAt(AddItem(sys, AddItem(sys, s, q), p), ArrayField(key)) == b
      && ListAt(AddItem(sys, AddItem(sys, s, p), q), ArrayField(key)) == a
  {
    var q, p := Item(key + "__" + distro, Array(a)), Item(key, Array(b));
    var dq, dp := Decl(key, Fit(sys, distro), Array(a)), Decl(key, BASE, Array(b));
    OtherDistroIsSkipped(sys, s, key, distro, Array(a));
    PlainApplies(sys, Apply(s, dq), key, Array(b));
    PlainApplies(sys, s, key, Array(b));
    OtherDistroIsSkipped(sys, Apply(s, dp), key, distro, Array(a));
    PriorityKept(s, dp);
    hide AddItem, Apply, DoubleUnderscore, Fit, IsArray, IsChecksum, IsSource, Priority;
    ArrayStep(Apply(s, dq), dp);
    ArrayStep(Apply(s, dp), dq);
  }

  lemma PriorityKept(s: Spec, d: Decl)
    requires d.priority == BASE
    ensures Priority(Apply(s, d), d.key) == Priority(s, d.key) || Priority(Apply(s, d), d.key) == BASE
  {
    MapKeepsPriorities(Raise(s, d.key, d.priority), d, Priority(s, d.key));
    hide MapValue;
  }

  // ---- sources and checksums ------------------------------------------------------------------------

  /** A list declared with a priority. */
  datatype Listing<T> = Listing(priority: int, items: seq<T>)

  function Top<T>(zs: seq<Listing<T>>): (r: int)
    ensures r >= BASE
  {
    if zs == [] then BASE else Max(Top(zs[..|zs| - 1]), zs[|zs| - 1].priority)
  }

  /** The last unqualified list. */
  function LastBase<T>(zs: seq<Listing<T>>): seq<T> {
    if zs == [] then []
    else
      var last := zs[|zs| - 1];
      if last.priority == BASE then last.items else LastBase(zs[..|zs| - 1])
  }

  /** The qualified lists in order, without those an earlier one outranks. */
  function Qualified<T>(zs: seq<Listing<T>>): seq<T> {
    if zs == [] then []
    else
      var init, last := zs[..|zs| - 1], zs[|zs| - 1];
      Qualified(init) + (if last.priority > BASE && last.priority >= Top(init) then last.items else [])
  }

  function Merged<T>(zs: seq<Listing<T>>): seq<T> {
    LastBase(zs) + Qualified(zs)
  }

  /** The lists declared for a key. */
  function Listings(ds: seq<Decl>, key: string): seq<Listing<string>> {
    if ds == [] then []
    else
      var init, last := ds[..|ds| - 1], ds[|ds| - 1];
      Listings(init, key) +
      (if last.key == key && last.value.Array? then [Listing(last.priority, last.value.items)] else [])
  }

  ghost predicate OnlyArrays(ds: seq<Decl>, key: string) {
    forall d :: d in ds && d.key == key ==> d.value.Array?
  }

  lemma {:induction false} TopIsHighest(ds: seq<Decl>, key: string)
    requires OnlyArrays(ds, key)
    ensures Top(Listings(ds, key)) == Highest(ds, key)
  {
    if ds != [] {
      var init, last := ds[..|ds| - 1], ds[|ds| - 1];
      TopIsHighest(init, key);
      assert last in ds;
      ListingsSnoc(ds, key);
      if last.key == key {
        MergeSnoc(Listings(init, key), Listing(last.priority, last.value.items));
      }
      hide Listings, Top;
    }
  }

  lemma ListingsSnoc(ds: seq<Decl>, key: string)
    requires ds != []
    ensures var init, d := ds[..|ds| - 1], ds[|ds| - 1];
      Listings(ds, key) == if d.key == key && d.value.Array?
        then Listings(init, key) + [Listing(d.priority, d.value.items)] else Listings(init, key)
  {
  }

  lemma MergeSnoc<T>(zs: seq<Listing<T>>, z: Listing<T>)
    ensures Top(zs + [z]) == Max(Top(zs), z.priority)
    ensures LastBase(zs + [z]) == if z.priority == BASE then z.items else LastBase(zs)
    ensures Qualified(zs + [z]) == Qualified(zs) + (if z.priority > BASE && z.priority >= Top(zs) then z.items else [])
  {
    assert (zs + [z])[..|zs|] == zs;
  }

  lemma SourceStep(s: Spec, d: Decl)
    requires IsSource(d.key) && d.value.Array? && d.priority >= BASE
    ensures var t := Apply(s, d);
      && t.archSources == (if d.priority > BASE && d.priority >= Priority(s, d.key) then s.archSources + d.value.items else s.archSources)
      && ListAt(t, SOURCES) == (if d.priority == BASE then d.value.items else ListAt(s, SOURCES))
  {
    hide IsHook, TargetArch, IsScalar;
  }

  lemma OtherStep(s: Spec, d: Decl)
    requires !(IsSource(d.key) && d.value.Array?)
    ensures Apply(s, d).archSources == s.archSources && ListAt(Apply(s, d), SOURCES) == ListAt(s, SOURCES)
  {
    OthersUntouched(s, d, SOURCES);
    hide IsHook, TargetArch, IsScalar, IsChecksum, IsArray, IsName, FunctionSlot;
  }

  /** However base and qualified source lists are mixed, the fields hold the last base
      list and, apart, the accepted qualified ones in order. */
  lemma {:induction false} SourcesAccumulate(s0: Spec, ds: seq<Decl>)
    requires Fresh(s0) && AllApply(ds) && OnlyArrays(ds, "source")
    ensures var s, zs := ApplyAll(s0, ds), Listings(ds, "source");
      ListAt(s, SOURCES) == LastBase(zs) && s.archSources == Qualified(zs)
  {
    if ds != [] {
      var init, d := ds[..|ds| - 1], ds[|ds| - 1];
      assert d in ds;
      Unsnoc(s0, ds);
      SourcesAccumulate(s0, init);
      PriorityIsHighest(s0, init, "source");
      TopIsHighest(init, "source");
      ListingsSnoc(ds, "source");
      hide ApplyAll, Apply, Listings, LastBase, Qualified, Highest, Top;
      if d.key == "source" {
        SourceStep(ApplyAll(s0, init), d);
        MergeSnoc(Listings(init, "source"), Listing(d.priority, d.value.items));
      } else {
        OtherStep(ApplyAll(s0, init), d);
      }
    }
  }

  lemma HashStep(s: Spec, d: Decl)
    requires IsChecksum(d.key) && d.value.Array? && d.priority >= BASE
    ensures var t := Apply(s, d);
      && t.archHashSums == (if d.priority > BASE && d.priority >= Priority(s, d.key) then s.archHashSums + d.value.items else s.archHashSums)
      && ListAt(t, HashSums) == (if d.priority == BASE then d.value.items else ListAt(s, HashSums))
  {
    hide IsHook, TargetArch, IsScalar, IsChecksum;
  }

  lemma OtherHashStep(s: Spec, d: Decl)
    requires !(IsChecksum(d.key) && d.value.Array?)
    ensures Apply(s, d).archHashSums == s.archHashSums && ListAt(Apply(s, d), HashSums) == ListAt(s, HashSums)
  {
    OthersUntouched(s, d, HashSums);
    hide IsHook, TargetArch, IsScalar, IsChecksum, IsArray, IsSource, IsName, FunctionSlot;
  }

  /** The same for checksums of one kind. */
  lemma {:induction false} HashSumsAccumulate(s0: Spec, ds: seq<Decl>, kind: string)
    requires Fresh(s0) && AllApply(ds) && OnlyArrays(ds, kind)
    requires IsChecksum(kind) && forall d :: d in ds && IsChecksum(d.key) ==> d.key == kind
    ensures var s, zs := ApplyAll(s0, ds), Listings(ds, kind);
      ListAt(s, HashSums) == LastBase(zs) && s.archHashSums == Qualified(zs)
  {
    hide IsChecksum;
    if ds != [] {
      var init, d := ds[..|ds| - 1], ds[|ds| - 1];
      assert d in ds;
      Unsnoc(s0, ds);
      HashSumsAccumulate(s0, init, kind);
      PriorityIsHighest(s0, init, kind);
      TopIsHighest(init, kind);
      ListingsSnoc(ds, kind);
      hide ApplyAll, Apply, Listings, LastBase, Qualified, Highest, Top;
      if d.key == kind {
        HashStep(ApplyAll(s0, init), d);
        MergeSnoc(Listings(init, kind), Listing(d.priority, d.value.items));
      } else {
        OtherHashStep(ApplyAll(s0, init), d);
      }
    }
  }

  /** After Finalize the sources are the last base list followed by the accepted
      qualified lists, whatever order they were declared in. */
  lemma FinalSources(s0: Spec, ds: seq<Decl>)
    requires Fresh(s0) && AllApply(ds) && OnlyArrays(ds, "source")
    ensures ListAt(Finalize(ApplyAll(s0, ds)), SOURCES) == Merged(Listings(ds, "source"))
  {
    SourcesAccumulate(s0, ds);
    hide ApplyAll, Listings, LastBase, Qualified;
  }

  lemma FinalHashSums(s0: Spec, ds: seq<Decl>, kind: string)
    requires Fresh(s0) && AllApply(ds) && OnlyArrays(ds, kind)
    requires IsChecksum(kind) && forall d :: d in ds && IsChecksum(d.key) ==> d.key == kind
    ensures ListAt(Finalize(ApplyAll(s0, ds)), HashSums) == Merged(Listings(ds, kind))
  {
    HashSumsAccumulate(s0, ds, kind);
    hide ApplyAll, Listings, LastBase, Qualified, IsChecksum;
  }

  // ---- sources and checksums stay aligned ---------------------------------------------------------

  /** Sources declared together with their checksums. */
  type Pairs = seq<(string, string)>

  function Firsts(ps: Pairs): seq<string> {
    seq(|ps|, i requires 0 <= i < |ps| => ps[i].0)
  }

  function Seconds(ps: Pairs): seq<string> {
    seq(|ps|, i requires 0 <= i < |ps| => ps[i].1)
  }

  /** zs and hs are the two halves of the paired lists ps. */
  ghost predicate Halves(ps: seq<Listing<(string, string)>>, zs: seq<Listing<string>>, hs: seq<Listing<string>>) {
    && |ps| == |zs| == |hs|
    && forall i :: 0 <= i < |ps| ==>
      zs[i] == Listing(ps[i].priority, Firsts(ps[i].items)) && hs[i] == Listing(ps[i].priority, Seconds(ps[i].items))
  }

  lemma HalvesAppend(a: Pairs, b: Pairs)
    ensures Firsts(a + b) == Firsts(a) + Firsts(b) && Seconds(a + b) == Seconds(a) + Seconds(b)
    ensures Firsts([]) == [] && Seconds([]) == []
  {
  }

  lemma {:induction false} MergeHalves(ps: seq<Listing<(string, string)>>, zs: seq<Listing<string>>, hs: seq<Listing<string>>)
    requires Halves(ps, zs, hs)
    ensures Top(zs) == Top(ps) == Top(hs)
    ensures LastBase(zs) == Firsts(LastBase(ps)) && LastBase(hs) == Seconds(LastBase(ps))
    ensures Qualified(zs) == Firsts(Qualified(ps)) && Qualified(hs) == Seconds(Qualified(ps))
  {
    HalvesAppend([], []);
    if ps != [] {
      var n := |ps| - 1;
      MergeHalves(ps[..n], zs[..n], hs[..n]);
      HalvesAppend(Qualified(ps[..n]), ps[n].items);
      assert ps == ps[..n] + [ps[n]] && zs == zs[..n] + [zs[n]] && hs == hs[..n] + [hs[n]];
      MergeSnoc(ps[..n], ps[n]);
      MergeSnoc(zs[..n], zs[n]);
      MergeSnoc(hs[..n], hs[n]);
      assert forall q: seq<string> :: q + [] == q;
      assert Qualified(ps[..n]) + [] == Qualified(ps[..n]);
      hide Firsts, Seconds, LastBase, Qualified, Top;
    }
  }

  /** When every source list is declared with a checksum list of the same length and the
      same qualifiers, in the same order, the final lists have the same length and at
      every index hold a source and the checksum declared with it. */
  lemma SourcesMatchHashSums(s0: Spec, ds: seq<Decl>, kind: string, ps: seq<Listing<(string, string)>>)
    requires Fresh(s0) && AllApply(ds) && OnlyArrays(ds, "source") && OnlyArrays(ds, kind)
    requires IsChecksum(kind) && forall d :: d in ds && IsChecksum(d.key) ==> d.key == kind
    requires Halves(ps, Listings(ds, "source"), Listings(ds, kind))
    ensures var s := Finalize(ApplyAll(s0, ds));
      ListAt(s, SOURCES) == Firsts(Merged(ps)) && ListAt(s, HashSums) == Seconds(Merged(ps))
  {
    FinalSources(s0, ds);
    FinalHashSums(s0, ds, kind);
    MergeHalves(ps, Listings(ds, "source"), Listings(ds, kind));
    HalvesAppend(LastBase(ps), Qualified(ps));
    hide Firsts, Seconds, Halves, ApplyAll, Finalize, LastBase, Qualified, Listings, IsChecksum;
  }
}
