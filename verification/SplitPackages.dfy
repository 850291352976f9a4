/** Split packages: before each package_<name>() body its overrideable fields are set
    back to the top-level values, so that one sub-package does not show in the next. */
module SplitPackages {
  import opened Text
  import opened Pkgbuild

  const OVERRIDE_KEYS: set<string> := {
    "pkgdesc", "arch", "url", "license", "groups", "depends", "optdepends", "provides", "conflicts", "replaces",
    "backup", "options", "install", "changelog"}

  const COPIED: set<Slot> := {
    ScalarField("pkgdesc"), ScalarField("url"), ArrayField("license"), ArrayField("depends"), ArrayField("optdepends"),
    ArrayField("provides"), ArrayField("conflicts"), ArrayField("replaces"), ArrayField("backup"), ArrayField("options")}

  predicate IsOverrideKey(key: string) { key in OVERRIDE_KEYS }

  predicate IsCopied(slot: Slot) { slot in COPIED }

  // ---- restoring -----------------------------------------------------------------------

  /** dst with the copied fields of src, and src's priorities for the overrideable keys. */
  function Copy(dst: Spec, src: Spec): Spec {
    dst.(values := map slot | slot in dst.values.Keys + src.values.Keys
                     && (if IsCopied(slot) then slot in src.values else slot in dst.values)
                   :: if IsCopied(slot) then src.values[slot] else dst.values[slot],
         priorities := map k | k in dst.priorities.Keys + OVERRIDE_KEYS
                       :: if IsOverrideKey(k) then Priority(src, k) else dst.priorities[k])
  }

  /** Alike in everything a sub-package's overrides can see or set of the copied fields. */
  ghost predicate Agree(s: Spec, t: Spec) {
    && TargetArch(s) == TargetArch(t)
    && (forall slot :: IsCopied(slot) ==> SameSlot(s, t, slot))
    && (forall k :: IsOverrideKey(k) ==> Priority(s, k) == Priority(t, k))
  }

  lemma CopyAt(dst: Spec, src: Spec, slot: Slot)
    ensures IsCopied(slot) ==> SameSlot(Copy(dst, src), src, slot)
    ensures !IsCopied(slot) ==> SameSlot(Copy(dst, src), dst, slot)
  {
    hide IsCopied, IsOverrideKey, Priority;
  }

  lemma CopyPriority(dst: Spec, src: Spec, k: string)
    ensures Priority(Copy(dst, src), k) == if IsOverrideKey(k) then Priority(src, k) else Priority(dst, k)
  {
    hide IsCopied;
  }

  lemma TargetIsNotCopied()
    ensures !IsCopied(ScalarField("target_arch")) && !IsOverrideKey("target_arch")
  {
  }

  /** After restoring, only the snapshot matters. */
  lemma CopiesAgree(s: Spec, t: Spec, snap: Spec)
    requires TargetArch(s) == TargetArch(t)
    ensures Agree(Copy(s, snap), Copy(t, snap)) && TargetArch(Copy(s, snap)) == TargetArch(s)
  {
    TargetIsNotCopied();
    CopyAt(s, snap, ScalarField("target_arch"));
    CopyAt(t, snap, ScalarField("target_arch"));
    hide IsCopied, IsOverrideKey, Copy;
    forall slot | IsCopied(slot)
      ensures SameSlot(Copy(s, snap), Copy(t, snap), slot)
    {
      CopyAt(s, snap, slot);
      CopyAt(t, snap, slot);
    }
    forall k | IsOverrideKey(k)
      ensures Priority(Copy(s, snap), k) == Priority(Copy(t, snap), k)
    {
      CopyPriority(s, snap, k);
      CopyPriority(t, snap, k);
    }
  }

  // ---- one override ------------------------------------------------------------------------

  /** The variable an override is for: before a double underscore, or before the last
      single one. */
  function OverrideBase(name: string): string {
    var i, j := DoubleUnderscore(name), LastIndexOf(name, '_');
    if i >= 0 then name[..i] else if j >= 0 then name[..j] else name
  }

  function ApplyOverride(sys: System, s: Spec, item: Item): Spec {
    if IsOverrideKey(OverrideBase(item.name)) then AddItem(sys, s, item) else s
  }

  function ParseOverrides(sys: System, s: Spec, items: seq<Item>): Spec {
    if items == [] then s
    else ApplyOverride(sys, ParseOverrides(sys, s, items[..|items| - 1]), items[|items| - 1])
  }

  lemma KeysArePlain(k: string)
    requires IsOverrideKey(k)
    ensures '_' !in k
  {
  }

  lemma CopiedNames(slot: Slot)
    requires IsCopied(slot)
    ensures slot.ScalarField? || slot.ArrayField?
    ensures IsOverrideKey(slot.name)
  {
  }

  lemma TargetIsNoOverride(name: string)
    requires name == "target_arch"
    ensures !IsOverrideKey(OverrideBase(name))
  {
    assert name[6] == '_' && LastIndexOf(name, '_') == 6 && DoubleUnderscore(name) < 0;
    assert name[..6] == "target";
    hide LastIndexOf, DoubleUnderscore;
  }

  /** The key an accepted override is filed under: an overrideable one, or a name of its
      own that sets no copied field. */
  lemma OverrideIsFiled(sys: System, target: string, name: string)
    requires IsOverrideKey(OverrideBase(name))
    ensures var key := ParseDirective(sys, target, name).key;
      key == OverrideBase(name) || (key == name && '_' in name && name != "target_arch")
  {
    KeysArePlain(OverrideBase(name));
    TargetIsNoOverride("target_arch");
    hide IsOverrideKey, ParseDirective;
    if DoubleUnderscore(name) >= 0 {
      DistroKeyParsed(sys, target, name);
    } else {
      PlainNameParsed(sys, target, name);
    }
  }

  lemma DistroKeyParsed(sys: System, target: string, name: string)
    requires DoubleUnderscore(name) >= 0 && '_' !in name[..DoubleUnderscore(name)]
    ensures ParseDirective(sys, target, name).key == name[..DoubleUnderscore(name)]
  {
    hide DoubleUnderscore, DistributionPriority, IsArchitecture;
    assert IndexOf(name[..DoubleUnderscore(name)], '_') < 0;
    hide IndexOf;
  }

  lemma PlainNameParsed(sys: System, target: string, name: string)
    requires DoubleUnderscore(name) < 0 && '_' !in OverrideBase(name)
    ensures var key := ParseDirective(sys, target, name).key;
      key == OverrideBase(name) || (key == name && '_' in name)
  {
    hide DoubleUnderscore, DistributionPriority, IsArchitecture;
    if LastIndexOf(name, '_') >= 0 {
      assert IndexOf(name, '_') == |OverrideBase(name)|;
    }
    hide IndexOf, LastIndexOf;
  }

  // ---- declarations treat alike specs alike ----------------------------------------------------

  lemma VariableAgrees(s: Spec, t: Spec, key: string, v: Value, slot: Slot)
    requires SameSlot(s, t, slot) && TargetArch(s) == TargetArch(t)
    ensures SameSlot(MapVariable(s, key, v), MapVariable(t, key, v), slot)
  {
    hide IsScalar, IsTarget, TargetArch;
  }

  lemma ArrayAgrees(s: Spec, t: Spec, key: string, items: seq<string>, priority: int, slot: Slot)
    requires SameSlot(s, t, slot)
    ensures SameSlot(MapArray(s, key, items, priority), MapArray(t, key, items, priority), slot)
  {
    hide IsChecksum, IsArray, IsSource, IsName;
  }

  lemma ApplyAgrees(s: Spec, t: Spec, d: Decl, slot: Slot)
    requires SameSlot(s, t, slot) && TargetArch(s) == TargetArch(t) && Priority(s, d.key) == Priority(t, d.key)
    ensures SameSlot(Apply(s, d), Apply(t, d), slot)
  {
    var r, q := Raise(s, d.key, d.priority), Raise(t, d.key, d.priority);
    assert r.values == s.values && q.values == t.values;
    assert TargetArch(r) == TargetArch(q) by { hide ScalarAt; }
    if d.value.Scalar? {
      VariableAgrees(r, q, d.key, d.value, slot);
    } else if d.value.Array? {
      ArrayAgrees(r, q, d.key, d.value.items, d.priority, slot);
    }
    hide Raise, MapVariable, MapArray, FunctionSlot, TargetArch, Priority;
  }

  lemma PriorityAfter(s: Spec, d: Decl, k: string)
    requires d.priority >= BASE
    ensures Priority(Apply(s, d), k) == if k == d.key then Max(Priority(s, k), d.priority) else Priority(s, k)
  {
    MapKeepsPriorities(Raise(s, d.key, d.priority), d, Priority(s, d.key));
    hide MapValue;
  }

  lemma TargetAfter(s: Spec, d: Decl)
    requires d.key != "target_arch"
    ensures TargetArch(Apply(s, d)) == TargetArch(s)
  {
    OthersUntouched(s, d, ScalarField("target_arch"));
    hide Apply;
  }

  /** A declaration under an overrideable key, or under a name that is neither one nor
      the target architecture, keeps agreeing specs in agreement. */
  lemma ApplyKeepsAgreement(s: Spec, t: Spec, d: Decl)
    requires Agree(s, t) && d.priority >= BASE && (IsOverrideKey(d.key) || '_' in d.key) && d.key != "target_arch"
    ensures Agree(Apply(s, d), Apply(t, d)) && TargetArch(Apply(s, d)) == TargetArch(s)
  {
    hide IsCopied, IsOverrideKey, Apply, TargetArch, Priority, Touches;
    TargetAfter(s, d);
    TargetAfter(t, d);
    forall slot | IsCopied(slot)
      ensures SameSlot(Apply(s, d), Apply(t, d), slot)
    {
      if IsOverrideKey(d.key) {
        ApplyAgrees(s, t, d, slot);
      } else {
        CopiedUntouched(d, slot);
        OthersUntouched(s, d, slot);
        OthersUntouched(t, d, slot);
      }
    }
    forall k | IsOverrideKey(k)
      ensures Priority(Apply(s, d), k) == Priority(Apply(t, d), k)
    {
      PriorityAfter(s, d, k);
      PriorityAfter(t, d, k);
    }
  }

  lemma CopiedUntouched(d: Decl, slot: Slot)
    requires IsCopied(slot) && !IsOverrideKey(d.key)
    ensures !Touches(d, slot)
  {
    CopiedNames(slot);
    hide IsCopied, IsOverrideKey, IsChecksum;
  }

  lemma OverrideKeepsAgreement(sys: System, s: Spec, t: Spec, item: Item)
    requires Agree(s, t)
    ensures Agree(ApplyOverride(sys, s, item), ApplyOverride(sys, t, item))
    ensures TargetArch(ApplyOverride(sys, s, item)) == TargetArch(s)
  {
    TargetIsNotCopied();
    hide IsCopied, IsOverrideKey, Apply, OverrideBase, ParseDirective, TargetArch, Priority;
    if IsOverrideKey(OverrideBase(item.name)) {
      var d := ParseDirective(sys, TargetArch(s), item.name);
      OverrideIsFiled(sys, TargetArch(s), item.name);
      if !d.invalid && d.priority != SKIP {
        ApplyKeepsAgreement(s, t, Decl(d.key, d.priority, item.value));
      }
    }
  }

  lemma {:induction false} OverridesKeepAgreement(sys: System, s: Spec, t: Spec, items: seq<Item>)
    requires Agree(s, t)
    ensures Agree(ParseOverrides(sys, s, items), ParseOverrides(sys, t, items))
    ensures TargetArch(ParseOverrides(sys, s, items)) == TargetArch(s)
  {
    hide Agree, ApplyOverride, TargetArch;
    if items != [] {
      var init, last := items[..|items| - 1], items[|items| - 1];
      OverridesKeepAgreement(sys, s, t, init);
      OverrideKeepsAgreement(sys, ParseOverrides(sys, s, init), ParseOverrides(sys, t, init), last);
    }
  }

  // ---- all sub-packages --------------------------------------------------------------------------

  /** The spec after packaging the given bodies one after the other. */
  function SubPackages(sys: System, s: Spec, snap: Spec, bodies: seq<seq<Item>>): Spec {
    if bodies == [] then s
    else
      var before := SubPackages(sys, s, snap, bodies[..|bodies| - 1]);
      ParseOverrides(sys, Copy(before, snap), bodies[|bodies| - 1])
  }

  lemma {:induction false} SubPackagesKeepTarget(sys: System, s: Spec, snap: Spec, bodies: seq<seq<Item>>)
    ensures TargetArch(SubPackages(sys, s, snap, bodies)) == TargetArch(s)
  {
    hide TargetArch, Copy, ParseOverrides;
    if bodies != [] {
      var before := SubPackages(sys, s, snap, bodies[..|bodies| - 1]);
      SubPackagesKeepTarget(sys, s, snap, bodies[..|bodies| - 1]);
      CopiesAgree(before, before, snap);
      OverridesKeepAgreement(sys, Copy(before, snap), Copy(before, snap), bodies[|bodies| - 1]);
    }
  }

  /** What a sub-package ends up with in the copied fields, and which priorities the
      overrideable keys then have, depends on the top-level values and its own body
      alone, whatever sub-packages came before. */
  lemma SubPackageStandsAlone(sys: System, s: Spec, t: Spec, snap: Spec, bodies: seq<seq<Item>>)
    requires bodies != [] && TargetArch(s) == TargetArch(t)
    ensures Agree(SubPackages(sys, s, snap, bodies), ParseOverrides(sys, Copy(t, snap), bodies[|bodies| - 1]))
  {
    hide TargetArch, Copy, ParseOverrides, Agree;
    var before := SubPackages(sys, s, snap, bodies[..|bodies| - 1]);
    SubPackagesKeepTarget(sys, s, snap, bodies[..|bodies| - 1]);
    CopiesAgree(before, t, snap);
    OverridesKeepAgreement(sys, Copy(before, snap), Copy(t, snap), bodies[|bodies| - 1]);
  }

  /** A sub-package that overrides nothing gets the top-level value of a copied field,
      and in any other field, "install" and "changelog" among them, whatever the
      sub-package before it left. */
  lemma EmptyBodyGets(sys: System, s: Spec, snap: Spec, bodies: seq<seq<Item>>, slot: Slot)
    ensures var after := SubPackages(sys, s, snap, bodies + [[]]);
      if IsCopied(slot) then SameSlot(after, snap, slot) else SameSlot(after, SubPackages(sys, s, snap, bodies), slot)
  {
    var all, before := bodies + [[]], SubPackages(sys, s, snap, bodies);
    assert all[..|all| - 1] == bodies && all[|all| - 1] == [];
    assert ParseOverrides(sys, Copy(before, snap), []) == Copy(before, snap);
    CopyAt(before, snap, slot);
    hide Copy, IsCopied, ParseOverrides;
  }

  /** A copied field that no override of its body names is the top-level one, whatever
      else the body and the bodies before it say. */
  lemma UnoverriddenGets(sys: System, s: Spec, snap: Spec, bodies: seq<seq<Item>>, items: seq<Item>, slot: Slot)
    requires IsCopied(slot) && forall item :: item in items ==> OverrideBase(item.name) != slot.name
    ensures SameSlot(SubPackages(sys, s, snap, bodies + [items]), snap, slot)
  {
    var all, before := bodies + [items], SubPackages(sys, s, snap, bodies);
    assert all[..|all| - 1] == bodies && all[|all| - 1] == items;
    CopyAt(before, snap, slot);
    OverridesKeepSlot(sys, Copy(before, snap), items, slot);
    hide Copy, IsCopied, ParseOverrides, OverrideBase;
  }

  lemma {:induction false} OverridesKeepSlot(sys: System, s: Spec, items: seq<Item>, slot: Slot)
    requires IsCopied(slot) && forall item :: item in items ==> OverrideBase(item.name) != slot.name
    ensures SameSlot(ParseOverrides(sys, s, items), s, slot)
  {
    hide IsCopied, OverrideBase, ApplyOverride;
    if items != [] {
      var init, last := items[..|items| - 1], items[|items| - 1];
      assert last in items;
      OverridesKeepSlot(sys, s, init, slot);
      OverrideKeepsSlot(sys, ParseOverrides(sys, s, init), last, slot);
    }
  }

  lemma OverrideKeepsSlot(sys: System, s: Spec, item: Item, slot: Slot)
    requires IsCopied(slot) && OverrideBase(item.name) != slot.name
    ensures SameSlot(ApplyOverride(sys, s, item), s, slot)
  {
    CopiedNames(slot);
    KeysArePlain(slot.name);
    hide IsCopied, IsOverrideKey, OverrideBase, ParseDirective, Apply, TargetArch, FunctionSlot, IsChecksum;
    if IsOverrideKey(OverrideBase(item.name)) {
      OverrideIsFiled(sys, TargetArch(s), item.name);
      var d := ParseDirective(sys, TargetArch(s), item.name);
      OthersUntouched(s, Decl(d.key, d.priority, item.value), slot);
    }
  }

  /** The last unqualified override of an overrideable variable is what the sub-package
      ends up with, whatever came before it. */
  lemma LastOverrideCounts(sys: System, s: Spec, snap: Spec, bodies: seq<seq<Item>>, items: seq<Item>, key: string, v: Value)
    requires IsOverrideKey(key)
    ensures var after := SubPackages(sys, s, snap, bodies + [items + [Item(key, v)]]);
      && (v.Scalar? && IsScalar(key) && !IsTarget(key) ==> ScalarAt(after, ScalarField(key)) == v.text)
      && (v.Array? && IsArray(key) && !IsChecksum(key) && !IsSource(key) ==> ListAt(after, ArrayField(key)) == v.items)
  {
    var body := items + [Item(key, v)];
    var all, before := bodies + [body], SubPackages(sys, s, snap, bodies);
    assert all[..|all| - 1] == bodies && all[|all| - 1] == body;
    var start := ParseOverrides(sys, Copy(before, snap), items);
    assert body[..|body| - 1] == items && body[|body| - 1] == Item(key, v);
    KeysArePlain(key);
    hide Copy, IsOverrideKey, IsScalar, IsTarget, IsArray, IsChecksum, IsSource, IsCopied;
    OverridePlain(sys, start, key, v);
  }

  lemma OverridePlain(sys: System, s: Spec, key: string, v: Value)
    requires IsOverrideKey(key) && '_' !in key
    ensures var after := ApplyOverride(sys, s, Item(key, v));
      && (v.Scalar? && IsScalar(key) && !IsTarget(key) ==> ScalarAt(after, ScalarField(key)) == v.text)
      && (v.Array? && IsArray(key) && !IsChecksum(key) && !IsSource(key) ==> ListAt(after, ArrayField(key)) == v.items)
  {
    assert OverrideBase(key) == key;
    PlainApplies(sys, s, key, v);
    hide IsOverrideKey, OverrideBase, IsScalar, IsTarget, IsArray, IsChecksum, IsSource, AddItem, Apply, TargetArch;
    if v.Scalar? && IsScalar(key) && !IsTarget(key) {
      ScalarStep(s, Decl(key, BASE, v));
    }
    if v.Array? && IsArray(key) && !IsChecksum(key) && !IsSource(key) {
      ArrayStep(s, Decl(key, BASE, v));
    }
  }

  /** A list overridden for the architecture built for replaces the top-level one exactly
      when the top level declared nothing of a higher rank. */
  lemma ArchOverrideCounts(sys: System, s: Spec, snap: Spec, bodies: seq<seq<Item>>, key: string, arch: string, xs: seq<string>)
    requires IsOverrideKey(key) && IsCopied(ArrayField(key)) && IsArray(key) && !IsChecksum(key) && !IsSource(key)
    requires IsArchitecture(arch) && '_' !in arch && BuildsFor(sys, s, arch)
    ensures ListAt(SubPackages(sys, s, snap, bodies + [[Item(key + "_" + arch, Array(xs))]]), ArrayField(key)) ==
      if Priority(snap, key) <= 4 then xs else ListAt(snap, ArrayField(key))
  {
    var item := Item(key + "_" + arch, Array(xs));
    var all, before := bodies + [[item]], SubPackages(sys, s, snap, bodies);
    assert all[..|all| - 1] == bodies && all[|all| - 1] == [item];
    var start := Copy(before, snap);
    SubPackagesKeepTarget(sys, s, snap, bodies);
    CopiesAgree(before, before, snap);
    CopyAt(before, snap, ArrayField(key));
    CopyPriority(before, snap, key);
    ArchOverrideStep(sys, start, key, arch, xs);
    hide Copy, IsOverrideKey, IsArray, IsChecksum, IsSource, IsCopied, IsArchitecture, Agree, ApplyOverride, TargetArch, Priority;
    assert [item][..0] == [];
    assert ParseOverrides(sys, start, [item]) == ApplyOverride(sys, start, item);
  }

  lemma ArchOverrideStep(sys: System, s: Spec, key: string, arch: string, xs: seq<string>)
    requires IsOverrideKey(key) && IsArray(key) && !IsChecksum(key) && !IsSource(key)
    requires IsArchitecture(arch) && '_' !in arch && BuildsFor(sys, s, arch)
    ensures ListAt(ApplyOverride(sys, s, Item(key + "_" + arch, Array(xs))), ArrayField(key)) ==
      if Priority(s, key) <= 4 then xs else ListAt(s, ArrayField(key))
  {
    var item := Item(key + "_" + arch, Array(xs));
    KeysArePlain(key);
    ArchitecturesArePlain(arch);
    assert arch != "" && arch[0] != '_' && DoubleUnderscore(arch) < 0;
    OnlyUnderscore(key, arch);
    hide *;
    SingleUnderscores(key, arch);
    ArchOverrideExactly(key, arch);
    OtherArchIsSkipped(sys, s, key, arch, Array(xs));
    Recognised(sys, s, item);
    RankedArray(s, Decl(key, 4, Array(xs)));
  }

  /** A list overridden for a distribution replaces the top-level one exactly when the
      distribution fits and the top level declared nothing of a higher rank. */
  lemma DistroOverrideCounts(sys: System, s: Spec, snap: Spec, bodies: seq<seq<Item>>, key: string, d: string, xs: seq<string>)
    requires IsOverrideKey(key) && IsCopied(ArrayField(key)) && IsArray(key) && !IsChecksum(key) && !IsSource(key)
    requires DoubleUnderscore(d) < 0 && sys.fullDistro != ""
    ensures ListAt(SubPackages(sys, s, snap, bodies + [[Item(key + "__" + d, Array(xs))]]), ArrayField(key)) ==
      if Fit(sys, d) > 0 && Priority(snap, key) <= Fit(sys, d) then xs else ListAt(snap, ArrayField(key))
  {
    var item := Item(key + "__" + d, Array(xs));
    var all, before := bodies + [[item]], SubPackages(sys, s, snap, bodies);
    assert all[..|all| - 1] == bodies && all[|all| - 1] == [item];
    var start := Copy(before, snap);
    CopyAt(before, snap, ArrayField(key));
    CopyPriority(before, snap, key);
    DistroOverrideStep(sys, start, key, d, xs);
    hide Copy, IsOverrideKey, IsArray, IsChecksum, IsSource, IsCopied, ApplyOverride, Priority, DoubleUnderscore, Fit;
    assert [item][..0] == [];
    assert ParseOverrides(sys, start, [item]) == ApplyOverride(sys, start, item);
  }

  lemma DistroOverrideStep(sys: System, s: Spec, key: string, d: string, xs: seq<string>)
    requires IsOverrideKey(key) && IsArray(key) && !IsChecksum(key) && !IsSource(key)
    requires DoubleUnderscore(d) < 0 && sys.fullDistro != ""
    ensures ListAt(ApplyOverride(sys, s, Item(key + "__" + d, Array(xs))), ArrayField(key)) ==
      if Fit(sys, d) > 0 && Priority(s, key) <= Fit(sys, d) then xs else ListAt(s, ArrayField(key))
  {
    var item := Item(key + "__" + d, Array(xs));
    KeysArePlain(key);
    DistroBase(key, d);
    hide *;
    OtherDistroIsSkipped(sys, s, key, d, Array(xs));
    Recognised(sys, s, item);
    if Fit(sys, d) > 0 {
      RankedArray(s, Decl(key, Fit(sys, d), Array(xs)));
    }
  }

  lemma DistroBase(key: string, d: string)
    requires '_' !in key
    ensures OverrideBase(key + "__" + d) == key
  {
    var name := key + "__" + d;
    assert DoubleUnderscore(key + "_") < 0;
    FirstDouble(key, d);
    assert name[..|key|] == key;
    hide DoubleUnderscore, LastIndexOf;
  }

  lemma Recognised(sys: System, s: Spec, item: Item)
    requires IsOverrideKey(OverrideBase(item.name))
    ensures ApplyOverride(sys, s, item) == AddItem(sys, s, item)
  {
    hide IsOverrideKey, OverrideBase, AddItem;
  }

  lemma RankedArray(s: Spec, d: Decl)
    requires d.value.Array? && IsArray(d.key) && !IsChecksum(d.key) && !IsSource(d.key) && d.priority > 0
    ensures ListAt(Apply(s, d), ArrayField(d.key)) ==
      if Priority(s, d.key) <= d.priority then d.value.items else ListAt(s, ArrayField(d.key))
  {
    hide IsArray, IsChecksum, IsSource, Apply, Priority;
    ArrayStep(s, d);
  }

  lemma InstallIsNotCopied()
    ensures NotCopiedScalar("install") && NotCopiedScalar("changelog")
  {
  }

  predicate NotCopiedScalar(key: string) {
    IsOverrideKey(key) && IsScalar(key) && !IsTarget(key) && !IsCopied(ScalarField(key))
  }

  /** An override of "install" or "changelog" in one body is what the next sub-package
      gets, though its own body is empty and whatever the top level says. */
  lemma InstallReachesTheNext(sys: System, s: Spec, snap: Spec, key: string, text: string)
    requires NotCopiedScalar(key)
    ensures ScalarAt(SubPackages(sys, s, snap, [[Item(key, Scalar(text))], []]), ScalarField(key)) == text
  {
    var item := Item(key, Scalar(text));
    var start := Copy(s, snap);
    KeysArePlain(key);
    OverridePlain(sys, start, key, item.value);
    hide Copy, ApplyOverride, IsOverrideKey, IsScalar, IsTarget, IsCopied;
    assert [[item]][..0] == [] && [item][..0] == [] && [[item]] + [[]] == [[item], []];
    assert ParseOverrides(sys, start, [item]) == ApplyOverride(sys, start, item);
    assert SubPackages(sys, s, snap, [[item]]) == ParseOverrides(sys, start, [item]);
    EmptyBodyGets(sys, s, snap, [[item]], ScalarField(key));
  }

  // ---- which qualified overrides are recognised ------------------------------------------------------

  lemma UnderscoreIsNoKey(name: string, i: nat)
    requires i < |name| && name[i] == '_'
    ensures !IsOverrideKey(name)
  {
    if IsOverrideKey(name) {
      KeysArePlain(name);
    }
    hide IsOverrideKey;
  }

  lemma LastUnderscore(key: string, arch: string, i: nat)
    requires i < |arch| && arch[i] == '_'
    ensures LastIndexOf(key + "_" + arch, '_') > |key|
  {
    CharOfArch(key, arch, i);
    LastIsNotBefore(key + "_" + arch, '_', |key| + 1 + i);
    hide *;
  }

  lemma CharOfArch(key: string, arch: string, i: nat)
    requires i < |arch|
    ensures (key + "_" + arch)[|key| + 1 + i] == arch[i]
  {
  }

  lemma LastIsNotBefore(s: string, c: char, j: nat)
    requires j < |s| && s[j] == c
    ensures LastIndexOf(s, c) >= j
  {
    hide LastIndexOf;
  }

  lemma OnlyUnderscore(key: string, arch: string)
    requires '_' !in arch
    ensures LastIndexOf(key + "_" + arch, '_') == |key|
  {
    LastIndexBefore(key, '_', arch);
    assert key + ['_'] + arch == key + "_" + arch;
    hide LastIndexOf;
  }

  /** An override for one architecture is recognised exactly when the architecture's
      name has no underscore of its own. */
  lemma ArchOverrideExactly(key: string, arch: string)
    requires IsOverrideKey(key) && DoubleUnderscore(key + "_" + arch) < 0
    ensures IsOverrideKey(OverrideBase(key + "_" + arch)) <==> '_' !in arch
  {
    var name := key + "_" + arch;
    hide IsOverrideKey, DoubleUnderscore, LastIndexOf;
    if '_' in arch {
      var i :| 0 <= i < |arch| && arch[i] == '_';
      LastUnderscore(key, arch, i);
      assert OverrideBase(name)[|key|] == '_';
      UnderscoreIsNoKey(OverrideBase(name), |key|);
    } else {
      OnlyUnderscore(key, arch);
      assert OverrideBase(name) == key;
    }
  }

  /** An override for one architecture on one distribution is never recognised, whatever
      the system. */
  lemma CombinedOverrideIsDropped(sys: System, s: Spec, item: Item)
    requires DoubleUnderscore(item.name) >= 0 && '_' in item.name[..DoubleUnderscore(item.name)]
    ensures ApplyOverride(sys, s, item) == s
  {
    var head := item.name[..DoubleUnderscore(item.name)];
    if IsOverrideKey(head) {
      KeysArePlain(head);
    }
    hide IsOverrideKey, AddItem;
  }

  lemma X86Name()
    ensures IsArchitecture("x86_64") && '_' in "x86_64" && DoubleUnderscore("x86_64") < 0
  {
    assert "x86_64"[3] == '_';
  }

  /** On x86_64 itself the top level honours a declaration qualified with x86_64; a
      sub-package drops it. */
  lemma X86OverrideIsDropped(sys: System, s: Spec, key: string, arch: string, value: Value)
    requires IsOverrideKey(key) && arch == "x86_64" && BuildsFor(sys, s, arch)
    ensures AddItem(sys, s, Item(key + "_" + arch, value)) == Apply(s, Decl(key, 4, value))
    ensures ApplyOverride(sys, s, Item(key + "_" + arch, value)) == s
  {
    X86Name();
    KeysArePlain(key);
    assert arch != "" && arch[0] != '_';
    hide *;
    SingleUnderscores(key, arch);
    OtherArchIsSkipped(sys, s, key, arch, value);
    ArchOverrideExactly(key, arch);
    NotRecognised(sys, s, Item(key + "_" + arch, value));
  }

  lemma NotRecognised(sys: System, s: Spec, item: Item)
    requires !IsOverrideKey(OverrideBase(item.name))
    ensures ApplyOverride(sys, s, item) == s
  {
    hide IsOverrideKey, OverrideBase, AddItem;
  }
}
